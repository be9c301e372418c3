/** table/block_builder.cc: prefix-compressed blocks with restart points.

    An entry is "shared, non-shared, value length" as varints, the key from the shared prefix on,
    and the value.  Every `interval` entries the whole key is written; the offsets of those entries
    follow the entries, and then their number. */
module Block {
  import opened Keys
  import opened Coding

  datatype Pair = Pair(key: Bytes, value: Bytes)

  // The format

  function CommonPrefix(a: Bytes, b: Bytes): (n: nat)
    ensures n <= |a| && n <= |b| && a[..n] == b[..n]
    ensures n == |a| || n == |b| || a[n] != b[n]
  {
    if a == [] || b == [] || a[0] != b[0] then 0 else 1 + CommonPrefix(a[1..], b[1..])
  }

  function Shared(es: seq<Pair>, i: nat, interval: nat): (n: nat)
    requires i < |es| && interval > 0
    ensures n <= |es[i].key|
    ensures n > 0 ==> i > 0 && n <= |es[i - 1].key| && es[i - 1].key[..n] == es[i].key[..n]
  {
    if i % interval == 0 then 0 else CommonPrefix(es[i - 1].key, es[i].key)
  }

  /** Restart points share nothing; in between as much as possible is shared with the key before. */
  lemma SharedIsLongest(es: seq<Pair>, i: nat, interval: nat)
    requires i < |es| && interval > 0
    ensures var n := Shared(es, i, interval);
            if i % interval == 0 then n == 0
            else i > 0 && (n == |es[i - 1].key| || n == |es[i].key| || (n < |es[i - 1].key| && n < |es[i].key| && es[i - 1].key[n] != es[i].key[n]))
  {
  }

  function HeaderLength(shared: nat, nonShared: nat, valueLength: nat): (n: nat)
    ensures n >= 3
  {
    |Varint(shared)| + |Varint(nonShared)| + |Varint(valueLength)|
  }

  function EntryBytes(shared: nat, key: Bytes, value: Bytes): (b: Bytes)
    requires shared <= |key|
    ensures |b| == HeaderLength(shared, |key| - shared, |value|) + (|key| - shared) + |value|
  {
    Varint(shared) + Varint(|key| - shared) + Varint(|value|) + key[shared..] + value
  }

  /** The first `n` entries. */
  function Body(es: seq<Pair>, n: nat, interval: nat): Bytes
    requires n <= |es| && interval > 0
  {
    if n == 0 then [] else Body(es, n - 1, interval) + EntryBytes(Shared(es, n - 1, interval), es[n - 1].key, es[n - 1].value)
  }

  function Offset(es: seq<Pair>, n: nat, interval: nat): nat
    requires n <= |es| && interval > 0
  {
    |Body(es, n, interval)|
  }

  /** The restart points among the first `n` entries; an empty block has one too. */
  function Starts(n: nat, interval: nat): (s: seq<nat>)
    requires interval > 0
    ensures |s| > 0 && s[0] == 0
    ensures forall r :: 0 < r < |s| ==> s[r] < n
    ensures forall r :: 0 <= r < |s| ==> s[r] % interval == 0
    ensures forall q, r :: 0 <= q < r < |s| ==> s[q] < s[r]
  {
    if n <= 1 then [0]
    else if (n - 1) % interval == 0 then Starts(n - 1, interval) + [n - 1]
    else Starts(n - 1, interval)
  }

  /** Every `interval`-th entry is a restart point, and there is always one. */
  lemma {:induction false} StartsAre(n: nat, interval: nat, i: nat)
    requires interval > 0
    ensures i in Starts(n, interval) <==> i == 0 || (i < n && i % interval == 0)
  {
    if n > 1 {
      StartsAre(n - 1, interval, i);
    }
  }

  function Restarts(es: seq<Pair>, n: nat, interval: nat): (s: seq<nat>)
    requires n <= |es| && interval > 0
  {
    var starts := Starts(n, interval);
    seq(|starts|, r requires 0 <= r < |starts| => if starts[r] <= |es| then Offset(es, starts[r], interval) else 0)
  }

  function Fixed32s(xs: seq<nat>): (b: Bytes)
    ensures |b| == 4 * |xs|
  {
    if xs == [] then [] else Fixed32(xs[0] % TWO32) + Fixed32s(xs[1..])
  }

  function BlockBytes(es: seq<Pair>, interval: nat): Bytes
    requires interval > 0
  {
    var restarts := Restarts(es, |es|, interval);
    Body(es, |es|, interval) + Fixed32s(restarts) + Fixed32(|restarts| % TWO32)
  }

  // What the format gives back

  datatype Header = Header(shared: nat, nonShared: nat, valueLength: nat, at: nat)

  function ThreeVarints(b: Bytes): (r: Option<Header>) {
    match GetVarint(b, 5)
    case None => None
    case Some((shared, n1)) =>
      var b1 := b[n1..];
      match GetVarint(b1, 5)
      case None => None
      case Some((nonShared, n2)) =>
        match GetVarint(b1[n2..], 5)
        case None => None
        case Some((valueLength, n3)) => Some(Header(shared % TWO32, nonShared % TWO32, valueLength % TWO32, n1 + n2 + n3))
  }

  /** DecodeEntry, on the bytes up to the limit; `at` is where the key bytes start. */
  function DecodeEntry(b: Bytes): (r: Option<Header>)
  {
    if |b| < 3 then None
    else
      var header := if b[0] < 128 && b[1] < 128 && b[2] < 128 then Some(Header(b[0], b[1], b[2], 3)) else ThreeVarints(b);
      if header.Some? && |b| - header.value.at < (header.value.nonShared + header.value.valueLength) % TWO32 then None else header
  }

  lemma EntryReadBack(shared: nat, key: Bytes, value: Bytes, tail: Bytes)
    requires shared <= |key| < TWO32 && |value| < TWO32 && |key| - shared + |value| < TWO32
    ensures DecodeEntry(EntryBytes(shared, key, value) + tail)
         == Some(Header(shared, |key| - shared, |value|, HeaderLength(shared, |key| - shared, |value|)))
  {
    var x, y, z := shared, |key| - shared, |value|;
    VarintReads(x);
    VarintReads(y);
    VarintReads(z);
    EntryParts(shared, key, value, tail);
    ThreeReadBack(EntryBytes(shared, key, value) + tail, Varint(x), x, Varint(y), y, Varint(z), z, key[shared..] + value + tail,
                  HeaderLength(x, y, z));
  }

  /** `v` is read as `x`, whatever follows. */
  ghost predicate ReadsAs(v: Bytes, x: nat) {
    forall rest :: VarintAt(v + rest, x, |v|, rest)
  }

  lemma VarintReads(x: nat)
    requires x < TWO32
    ensures ReadsAs(Varint(x), x)
  {
    VarintLengths(x);
    forall rest
      ensures VarintAt(Varint(x) + rest, x, |Varint(x)|, rest)
    {
      VarintRoundTrip(x, rest, 5);
    }
  }

  lemma ThreeReadBack(b: Bytes, vx: Bytes, x: nat, vy: Bytes, y: nat, vz: Bytes, z: nat, b3: Bytes, n: nat)
    requires x < TWO32 && y + z < TWO32 && |b3| >= y + z
    requires ReadsAs(vx, x) && ReadsAs(vy, y) && ReadsAs(vz, z)
    requires b == vx + (vy + (vz + b3)) && n == |vx| + |vy| + |vz|
    ensures DecodeEntry(b) == Some(Header(x, y, z, n))
  {
    DecodeSteps(b, x, |vx|, vy + (vz + b3), y, |vy|, vz + b3, z, |vz|, b3);
  }

  lemma EntryParts(shared: nat, key: Bytes, value: Bytes, tail: Bytes)
    requires shared <= |key|
    ensures EntryBytes(shared, key, value) + tail
         == Varint(shared) + (Varint(|key| - shared) + (Varint(|value|) + (key[shared..] + value + tail)))
  {
  }

  /** The first `n` bytes are a varint for `x`. */
  ghost predicate VarintAt(b: Bytes, x: nat, n: nat, rest: Bytes) {
    GetVarint(b, 5) == Some((x, n)) && b[n..] == rest
  }

  lemma ThreeSteps(b: Bytes, x: nat, n1: nat, b1: Bytes, y: nat, n2: nat, b2: Bytes, z: nat, n3: nat, b3: Bytes)
    requires x < TWO32 && y < TWO32 && z < TWO32
    requires VarintAt(b, x, n1, b1) && VarintAt(b1, y, n2, b2) && VarintAt(b2, z, n3, b3)
    ensures ThreeVarints(b) == Some(Header(x, y, z, n1 + n2 + n3))
  {
    SmallMod(x, TWO32);
    SmallMod(y, TWO32);
    SmallMod(z, TWO32);
  }

  lemma DecodeSteps(b: Bytes, x: nat, n1: nat, b1: Bytes, y: nat, n2: nat, b2: Bytes, z: nat, n3: nat, b3: Bytes)
    requires x < TWO32 && y < TWO32 && z < TWO32 && y + z < TWO32 && y + z <= |b3|
    requires VarintAt(b, x, n1, b1) && VarintAt(b1, y, n2, b2) && VarintAt(b2, z, n3, b3)
    ensures DecodeEntry(b) == Some(Header(x, y, z, n1 + n2 + n3))
  {
    ThreeSteps(b, x, n1, b1, y, n2, b2, z, n3, b3);
    SmallMod(y + z, TWO32);
    assert |b| == n1 + n2 + n3 + |b3|;
    if b[0] < 128 && b[1] < 128 && b[2] < 128 {
      FastPath(b);
    }
  }

  /** One-byte varints read the same either way. */
  lemma FastPath(b: Bytes)
    requires |b| >= 3 && b[0] < 128 && b[1] < 128 && b[2] < 128
    ensures ThreeVarints(b) == Some(Header(b[0], b[1], b[2], 3))
  {
    assert b[1..][1..][0] == b[2];
    assert GetVarint(b, 5) == Some((b[0], 1)) && GetVarint(b[1..], 5) == Some((b[1], 1)) && GetVarint(b[1..][1..], 5) == Some((b[2], 1));
  }

  /** Entries `i` to `n`. */
  function Tail(es: seq<Pair>, i: nat, n: nat, interval: nat): (b: Bytes)
    requires i <= n <= |es| && interval > 0
    ensures i < n ==> |b| >= 3
    decreases n - i
  {
    if i == n then [] else EntryBytes(Shared(es, i, interval), es[i].key, es[i].value) + Tail(es, i + 1, n, interval)
  }

  lemma {:induction false} BodyIs(es: seq<Pair>, i: nat, n: nat, interval: nat)
    requires i <= n <= |es| && interval > 0
    ensures Body(es, n, interval) == Body(es, i, interval) + Tail(es, i, n, interval)
    decreases n - i
  {
    if i < n {
      BodyIs(es, i + 1, n, interval);
      var entry := NextEntry(es, i, n, interval);
      Regroup(Body(es, i, interval), entry, Tail(es, i + 1, n, interval));
    } else {
      NothingAfter(Body(es, n, interval));
    }
  }

  lemma NextEntry(es: seq<Pair>, i: nat, n: nat, interval: nat) returns (entry: Bytes)
    requires i < n <= |es| && interval > 0
    ensures Body(es, i + 1, interval) == Body(es, i, interval) + entry
    ensures Tail(es, i, n, interval) == entry + Tail(es, i + 1, n, interval)
  {
    entry := EntryBytes(Shared(es, i, interval), es[i].key, es[i].value);
  }

  lemma NothingAfter(b: Bytes)
    ensures b + [] == b
  {
  }

  lemma Regroup(a: Bytes, b: Bytes, c: Bytes)
    ensures a + b + c == a + (b + c)
  {
  }

  lemma OffsetsGrow(es: seq<Pair>, i: nat, j: nat, interval: nat)
    requires i <= j <= |es| && interval > 0
    ensures Offset(es, i, interval) <= Offset(es, j, interval)
    ensures i < j ==> Offset(es, i, interval) < Offset(es, j, interval)
  {
    BodyIs(es, i, j, interval);
  }

  lemma {:induction false} Fixed32sAt(xs: seq<nat>, i: nat, tail: Bytes)
    requires i < |xs|
    ensures (Fixed32s(xs) + tail)[4 * i..] == Fixed32(xs[i] % TWO32) + (Fixed32s(xs[i + 1..]) + tail)
  {
    var first := Fixed32(xs[0] % TWO32);
    assert Fixed32s(xs) + tail == first + (Fixed32s(xs[1..]) + tail);
    if i > 0 {
      Fixed32sAt(xs[1..], i - 1, tail);
      assert xs[1..][i..] == xs[i + 1..];
      assert (first + (Fixed32s(xs[1..]) + tail))[4 * i..] == (Fixed32s(xs[1..]) + tail)[4 * (i - 1)..];
    }
  }

  lemma {:induction false} Fixed32sSnoc(xs: seq<nat>, x: nat)
    ensures Fixed32s(xs + [x]) == Fixed32s(xs) + Fixed32(x % TWO32)
  {
    if xs != [] {
      Fixed32sSnoc(xs[1..], x);
      assert (xs + [x])[1..] == xs[1..] + [x];
    }
  }

  // The builder

  datatype Builder = Builder(buffer: Bytes, restarts: seq<nat>, counter: nat, lastKey: Bytes)

  /** How many entries there are from the last restart point on. */
  function Count(n: nat, interval: nat): nat
    requires interval > 0
  {
    if n == 0 then 0 else (n - 1) % interval + 1
  }

  ghost predicate Built(es: seq<Pair>, interval: nat, b: Builder)
    requires interval > 0
  {
    && b.buffer == Body(es, |es|, interval)
    && b.restarts == Restarts(es, |es|, interval)
    && b.counter == Count(|es|, interval)
    && b.lastKey == if es == [] then [] else es[|es| - 1].key
  }

  /** The states a builder of these entries can be in. */
  ghost function Builders(es: seq<Pair>, interval: nat): iset<Builder>
    requires interval > 0
  {
    iset b: Builder | Built(es, interval, b)
  }

  ghost function AddTo(b: Builder, interval: nat, p: Pair): Builder {
    if b.counter < interval then
      Builder(b.buffer + EntryBytes(CommonPrefix(b.lastKey, p.key), p.key, p.value), b.restarts, b.counter + 1, p.key)
    else
      Builder(b.buffer + EntryBytes(0, p.key, p.value), b.restarts + [|b.buffer|], 1, p.key)
  }

  /** The loop of Add. */
  method SharePrefix(a: Bytes, b: Bytes) returns (shared: nat)
    ensures shared == CommonPrefix(a, b)
  {
    shared := 0;
    while shared < |a| && shared < |b| && a[shared] == b[shared]
      invariant shared <= |a| && shared <= |b| && a[..shared] == b[..shared]
    {
      shared := shared + 1;
    }
    PrefixIs(a, b, shared);
  }

  lemma AddBuilds(es: seq<Pair>, interval: nat, b: Builder, p: Pair)
    requires interval > 0 && b in Builders(es, interval)
    ensures AddTo(b, interval, p) in Builders(es + [p], interval)
  {
    if es != [] {
      AddNext(es, interval, b, p);
    } else {
      FirstEntry(p, interval);
      assert es + [p] == [p];
    }
  }

  lemma AddNext(es: seq<Pair>, interval: nat, b: Builder, p: Pair)
    requires interval > 0 && es != [] && Built(es, interval, b)
    ensures Built(es + [p], interval, AddTo(b, interval, p))
  {
    CounterStep(|es|, interval);
    if b.counter < interval {
      AddSharing(es, interval, b, p);
    } else {
      AddRestarting(es, interval, b, p);
    }
  }

  lemma AddSharing(es: seq<Pair>, interval: nat, b: Builder, p: Pair)
    requires interval > 0 && es != [] && Built(es, interval, b) && b.counter < interval && |es| % interval != 0
    requires Count(|es| + 1, interval) == b.counter + 1
    ensures Built(es + [p], interval, AddTo(b, interval, p))
  {
    Appended(es, p, interval, CommonPrefix(b.lastKey, p.key));
  }

  lemma AddRestarting(es: seq<Pair>, interval: nat, b: Builder, p: Pair)
    requires interval > 0 && es != [] && Built(es, interval, b) && b.counter >= interval && |es| % interval == 0
    requires Count(|es| + 1, interval) == 1
    ensures Built(es + [p], interval, AddTo(b, interval, p))
  {
    Appended(es, p, interval, 0);
  }

  /** The counter is at the interval exactly when the next entry is a restart point. */
  lemma CounterStep(n: nat, interval: nat)
    requires n > 0 && interval > 0
    ensures Count(n, interval) < interval <==> n % interval != 0
    ensures Count(n + 1, interval) == if Count(n, interval) < interval then Count(n, interval) + 1 else 1
  {
    NextStart(n, interval);
  }

  lemma FirstEntry(p: Pair, interval: nat)
    requires interval > 0
    ensures Body([p], 1, interval) == EntryBytes(0, p.key, p.value) && Restarts([p], 1, interval) == [0] && Restarts([], 0, interval) == [0]
    ensures CommonPrefix([], p.key) == 0
  {
    assert Body([p], 0, interval) == [];
    assert Starts(1, interval) == [0];
  }

  class BlockBuilder {
    const interval: nat
    var buffer: Bytes
    var restarts: seq<nat>
    var counter: nat
    var lastKey: Bytes
    ghost var entries: seq<Pair>

    function State(): Builder
      reads this
    {
      Builder(buffer, restarts, counter, lastKey)
    }

    /** Everything but the finished flag, whose only use is to forbid adding after Finish. */
    ghost predicate Valid()
      reads this
    {
      interval > 0 && State() in Builders(entries, interval)
    }

    constructor (interval: nat)
      requires interval > 0
      ensures Valid() && entries == [] && this.interval == interval
    {
      this.interval := interval;
      buffer, restarts, counter, lastKey := [], [0], 0, [];
      entries := [];
    }

    method IsEmpty() returns (empty: bool)
      requires Valid()
      ensures empty == (entries == [])
    {
      BodyIs(entries, 0, |entries|, interval);
      empty := buffer == [];
    }

    method Reset()
      requires interval > 0
      modifies this
      ensures Valid() && entries == []
    {
      buffer, restarts, counter, lastKey := [], [0], 0, [];
      entries := [];
    }

    function SizeEstimate(): nat
      reads this
    {
      |buffer| + 4 * |restarts| + 4
    }

    method Add(key: Bytes, value: Bytes)
      requires Valid()
      modifies this
      ensures Valid() && entries == old(entries) + [Pair(key, value)]
    {
      ghost var was := State();
      var shared := 0;
      if counter < interval {
        shared := SharePrefix(lastKey, key);
      } else {
        restarts := restarts + [|buffer|];
        counter := 0;
      }
      Rejoin(lastKey, key, shared);
      buffer := buffer + EntryBytes(shared, key, value);
      lastKey := lastKey[..shared] + key[shared..];
      counter := counter + 1;
      entries := entries + [Pair(key, value)];
      assert State() == AddTo(was, interval, Pair(key, value));
      AddBuilds(old(entries), interval, was, Pair(key, value));
    }

    method Finish() returns (block: Bytes)
      requires Valid()
      modifies this`buffer
      ensures block == BlockBytes(entries, interval) && |block| == old(SizeEstimate())
    {
      ghost var body := buffer;
      var i := 0;
      while i < |restarts|
        invariant i <= |restarts| && buffer == body + Fixed32s(restarts[..i])
      {
        NextRestart(body, restarts, i);
        buffer := buffer + Fixed32(restarts[i] % TWO32);
        i := i + 1;
      }
      assert restarts[..i] == restarts;
      buffer := buffer + Fixed32(|restarts| % TWO32);
      block := buffer;
    }
  }

  lemma Rejoin(a: Bytes, b: Bytes, n: nat)
    requires n <= |a| && n <= |b| && a[..n] == b[..n]
    ensures a[..n] + b[n..] == b
  {
  }

  lemma NextRestart(body: Bytes, xs: seq<nat>, i: nat)
    requires i < |xs|
    ensures body + Fixed32s(xs[..i]) + Fixed32(xs[i] % TWO32) == body + Fixed32s(xs[..i + 1])
  {
    Fixed32sSnoc(xs[..i], xs[i]);
    assert xs[..i + 1] == xs[..i] + [xs[i]];
  }

  lemma {:induction false} PrefixIs(a: Bytes, b: Bytes, n: nat)
    requires n <= |a| && n <= |b| && a[..n] == b[..n] && (n == |a| || n == |b| || a[n] != b[n])
    ensures CommonPrefix(a, b) == n
  {
    if n > 0 {
      assert a[..n][0] == b[..n][0] && a[1..][..n - 1] == a[..n][1..] && b[1..][..n - 1] == b[..n][1..];
      PrefixIs(a[1..], b[1..], n - 1);
    }
  }

  /** Entries already written stay as they are. */
  lemma {:induction false} BodyAppend(es: seq<Pair>, p: Pair, n: nat, interval: nat)
    requires n <= |es| && interval > 0
    ensures Body(es + [p], n, interval) == Body(es, n, interval)
  {
    if n > 0 {
      BodyAppend(es, p, n - 1, interval);
    }
  }

  /** Where the next restart point is. */
  lemma NextStart(n: nat, interval: nat)
    requires interval > 0
    ensures n > 0 ==> (n % interval == 0 <==> (n - 1) % interval + 1 == interval)
    ensures n > 0 && n % interval != 0 ==> n % interval == (n - 1) % interval + 1
    ensures Starts(n + 1, interval) == if n > 0 && n % interval == 0 then Starts(n, interval) + [n] else Starts(n, interval)
  {
    if n > 0 {
      var q, r := (n - 1) / interval, (n - 1) % interval;
      assert n - 1 == interval * q + r;
      if r + 1 == interval {
        Divides(n, interval, q + 1, 0);
      } else {
        Divides(n, interval, q, r + 1);
      }
    }
  }

  lemma Divides(n: nat, d: nat, q: nat, r: nat)
    requires d > 0 && r < d && n == d * q + r
    ensures n % d == r
  {
    assert d * (q - n / d) == n % d - r;
    Multiple(d, q - n / d);
  }

  lemma Multiple(d: nat, k: int)
    ensures k >= 1 ==> d * k >= d
    ensures k <= -1 ==> d * k + d <= 0
  {
  }

  /** One more entry: its bytes at the end, and a restart point if it is due. */
  lemma Appended(es: seq<Pair>, p: Pair, interval: nat, shared: nat)
    requires interval > 0 && es != []
    requires shared == if |es| % interval == 0 then 0 else CommonPrefix(es[|es| - 1].key, p.key)
    ensures shared <= |p.key| && Body(es + [p], |es| + 1, interval) == Body(es, |es|, interval) + EntryBytes(shared, p.key, p.value)
    ensures Restarts(es + [p], |es| + 1, interval)
         == if |es| % interval == 0 then Restarts(es, |es|, interval) + [Offset(es, |es|, interval)] else Restarts(es, |es|, interval)
  {
    BodyAppend(es, p, |es|, interval);
    assert Shared(es + [p], |es|, interval) == shared;
    RestartsAppended(es, p, interval);
  }

  lemma RestartsAppended(es: seq<Pair>, p: Pair, interval: nat)
    requires interval > 0 && es != []
    ensures Restarts(es + [p], |es| + 1, interval)
         == if |es| % interval == 0 then Restarts(es, |es|, interval) + [Offset(es, |es|, interval)] else Restarts(es, |es|, interval)
  {
    forall i | 0 <= i <= |es| ensures Offset(es + [p], i, interval) == Offset(es, i, interval) {
      BodyAppend(es, p, i, interval);
    }
    NextStart(|es|, interval);
  }
}
