/** util/bloom.cc and table/filter_block.cc: Bloom filters, one for every 2 KB of table. */
module Filter {
  import opened Keys
  import opened Coding

  // Bits

  predicate Bit(b: nat, i: nat) {
    if i == 0 then b % 2 == 1 else Bit(b / 2, i - 1)
  }

  /** b | (1 << i). */
  function SetBit(b: nat, i: nat): nat {
    if i == 0 then (if b % 2 == 1 then b else b + 1) else 2 * SetBit(b / 2, i - 1) + b % 2
  }

  function Pow2(n: nat): (p: nat)
    ensures p >= 1
  {
    if n == 0 then 1 else 2 * Pow2(n - 1)
  }

  lemma {:induction false} SetBitSets(b: nat, i: nat, j: nat)
    ensures Bit(SetBit(b, i), j) <==> i == j || Bit(b, j)
  {
    if i > 0 && j > 0 {
      assert SetBit(b, i) / 2 == SetBit(b / 2, i - 1);
      SetBitSets(b / 2, i - 1, j - 1);
    } else if i > 0 {
      assert SetBit(b, i) % 2 == b % 2;
    } else if j > 0 {
      assert SetBit(b, 0) / 2 == b / 2;
    }
  }

  lemma {:induction false} SetBitFits(b: nat, i: nat, n: nat)
    requires i < n && b < Pow2(n)
    ensures SetBit(b, i) < Pow2(n)
  {
    if i > 0 {
      SetBitFits(b / 2, i - 1, n - 1);
    } else {
      assert Pow2(n) % 2 == 0;
    }
  }

  lemma ByteSetBit(b: Byte, i: nat)
    requires i < 8
    ensures SetBit(b, i) < 256
  {
    assert Pow2(8) == 256 by { assert Pow2(4) == 16; }
    SetBitFits(b, i, 8);
  }

  predicate BitAt(bits: Bytes, pos: nat)
    requires pos / 8 < |bits|
  {
    Bit(bits[pos / 8], pos % 8)
  }

  // The Bloom filter

  /** bits_per_key_, k_, and the hash of a key. */
  datatype Bloom = Bloom(bitsPerKey: nat, probes: nat, hash: Bytes -> nat)

  predicate BloomOk(p: Bloom) {
    1 <= p.probes <= 30
  }

  /** A 32-bit number rotated right by 17 bits. */
  function Delta(h: nat): (d: nat)
    requires h < TWO32
  {
    h / 0x2_0000 + h % 0x2_0000 * 0x8000
  }

  function NextProbe(h: nat, delta: nat): (r: nat)
    ensures r < TWO32
  {
    (h + delta) % TWO32
  }

  /** The hash after `j` probes: 32-bit sums of the hash and its rotation by 17 bits. */
  function Probe(h: nat, j: nat): (r: nat)
    ensures r < TWO32
  {
    if j == 0 then h % TWO32 else NextProbe(Probe(h, j - 1), Delta(h % TWO32))
  }

  /** bitpos. */
  function Position(h: nat, bits: nat): (pos: nat)
    requires bits > 0
    ensures pos < bits
  {
    h % bits
  }

  /** The first `n` probes of a key are set. */
  predicate Marked(bits: Bytes, h: nat, n: nat)
    requires bits != []
  {
    forall j :: 0 <= j < n ==> BitAt(bits, Position(Probe(h, j), 8 * |bits|))
  }

  /** `pos` is one of the first `n` probes of a key. */
  ghost predicate Hits(h: nat, n: nat, bits: nat, pos: nat)
    requires bits > 0
  {
    exists j :: 0 <= j < n && Position(Probe(h, j), bits) == pos
  }

  /** Bits that were set stay set, and only probes of this key are added. */
  ghost predicate Adds(a: Bytes, h: nat, n: nat, b: Bytes) {
    && |a| == |b| && forall pos :: 0 <= pos < 8 * |a| ==> (BitAt(b, pos) <==> BitAt(a, pos) || Hits(h, n, 8 * |a|, pos))
  }

  method MarkBit(bits: Bytes, pos: nat) returns (r: Bytes)
    requires pos < 8 * |bits|
    ensures |r| == |bits| && forall q :: 0 <= q < 8 * |bits| ==> (BitAt(r, q) <==> q == pos || BitAt(bits, q))
  {
    ByteSetBit(bits[pos / 8], pos % 8);
    r := bits[pos / 8 := SetBit(bits[pos / 8], pos % 8)];
    forall q | 0 <= q < 8 * |bits| ensures BitAt(r, q) <==> q == pos || BitAt(bits, q) {
      SetBitSets(bits[pos / 8], pos % 8, q % 8);
    }
  }

  lemma OneMoreHit(h: nat, n: nat, bits: nat, pos: nat)
    requires bits > 0
    ensures Hits(h, n + 1, bits, pos) <==> Hits(h, n, bits, pos) || pos == Position(Probe(h, n), bits)
  {
  }

  method MarkKey(p: Bloom, key: Bytes, bits: Bytes) returns (r: Bytes)
    requires bits != []
    ensures Adds(bits, p.hash(key), p.probes, r)
  {
    var h := p.hash(key) % TWO32;
    var delta := Delta(h);
    ghost var start := p.hash(key);
    r := bits;
    for j := 0 to p.probes
      invariant Adds(bits, start, j, r) && h == Probe(start, j)
    {
      ghost var before := r;
      r := MarkBit(r, Position(h, 8 * |r|));
      forall pos | 0 <= pos < 8 * |bits| ensures BitAt(r, pos) <==> BitAt(bits, pos) || Hits(start, j + 1, 8 * |bits|, pos) {
        OneMoreHit(start, j, 8 * |bits|, pos);
        assert BitAt(before, pos) <==> BitAt(bits, pos) || Hits(start, j, 8 * |bits|, pos);
      }
      h := NextProbe(h, delta);
    }
  }

  /** Exactly the probes of these keys are set. */
  ghost predicate OnlyKeys(p: Bloom, keys: seq<Bytes>, bitmap: Bytes) {
    forall pos :: 0 <= pos < 8 * |bitmap| ==> (BitAt(bitmap, pos) <==> SomeKeyHits(p, keys, 8 * |bitmap|, pos))
  }

  ghost predicate SomeKeyHits(p: Bloom, keys: seq<Bytes>, bits: nat, pos: nat)
    requires bits > 0
  {
    exists i :: 0 <= i < |keys| && Hits(p.hash(keys[i]), p.probes, bits, pos)
  }

  lemma OneMoreKey(p: Bloom, keys: seq<Bytes>, key: Bytes, a: Bytes, b: Bytes)
    requires OnlyKeys(p, keys, a) && Adds(a, p.hash(key), p.probes, b)
    ensures OnlyKeys(p, keys + [key], b)
  {
    var all := keys + [key];
    forall pos | 0 <= pos < 8 * |b| ensures BitAt(b, pos) <==> SomeKeyHits(p, all, 8 * |b|, pos) {
      assert BitAt(a, pos) <==> SomeKeyHits(p, keys, 8 * |a|, pos);
      if SomeKeyHits(p, keys, 8 * |a|, pos) {
        var i :| 0 <= i < |keys| && Hits(p.hash(keys[i]), p.probes, 8 * |a|, pos);
        assert all[i] == keys[i];
      }
      if Hits(p.hash(key), p.probes, 8 * |a|, pos) {
        assert all[|keys|] == key;
      }
    }
  }

  lemma NoBits(n: nat, pos: nat)
    requires pos < 8 * n
    ensures var zero: Bytes := seq(n, _ => 0); !BitAt(zero, pos)
  {
    ZeroHasNoBit(pos % 8);
  }

  lemma {:induction false} ZeroHasNoBit(i: nat)
    ensures !Bit(0, i)
  {
    if i > 0 {
      ZeroHasNoBit(i - 1);
    }
  }

  /** CreateFilter: room for the bits wanted per key and at least 64, exactly the keys' probes set, and
      the number of probes. */
  method CreateFilter(p: Bloom, keys: seq<Bytes>) returns (filter: Bytes)
    requires BloomOk(p)
    ensures |filter| >= 9 && filter[|filter| - 1] == p.probes && OnlyKeys(p, keys, filter[..|filter| - 1])
    ensures |filter| - 1 == if |keys| * p.bitsPerKey < 64 then 8 else (|keys| * p.bitsPerKey + 7) / 8
    ensures forall i :: 0 <= i < |keys| ==> KeyMayMatch(p, keys[i], filter)
  {
    var bits := |keys| * p.bitsPerKey;
    if bits < 64 {
      bits := 64;
    }
    var bytes := (bits + 7) / 8;
    var bitmap: Bytes := seq(bytes, _ => 0);
    forall pos | 0 <= pos < 8 * |bitmap| ensures !BitAt(bitmap, pos) {
      NoBits(bytes, pos);
    }
    for i := 0 to |keys|
      invariant |bitmap| == bytes && OnlyKeys(p, keys[..i], bitmap)
    {
      ghost var before := bitmap;
      bitmap := MarkKey(p, keys[i], bitmap);
      OneMoreKey(p, keys[..i], keys[i], before, bitmap);
      assert keys[..i + 1] == keys[..i] + [keys[i]];
    }
    assert keys[..|keys|] == keys;
    filter := bitmap + [p.probes];
    assert filter[..|filter| - 1] == bitmap;
    forall i | 0 <= i < |keys| ensures KeyMayMatch(p, keys[i], filter) {
      KeyIsMarked(p, keys, i, bitmap);
    }
  }

  lemma KeyIsMarked(p: Bloom, keys: seq<Bytes>, i: nat, bitmap: Bytes)
    requires i < |keys| && bitmap != [] && OnlyKeys(p, keys, bitmap)
    ensures Marked(bitmap, p.hash(keys[i]), p.probes)
  {
    var h, bits := p.hash(keys[i]), 8 * |bitmap|;
    forall j | 0 <= j < p.probes ensures BitAt(bitmap, Position(Probe(h, j), bits)) {
      var pos := Position(Probe(h, j), bits);
      assert Hits(h, p.probes, bits, pos);
      assert SomeKeyHits(p, keys, bits, pos);
    }
  }

  lemma AddMod(a: nat, d: nat)
    ensures (a % TWO32 + d) % TWO32 == (a + d) % TWO32
  {
  }

  /** The rotation: a multiplication by a power of two, modulo 2^32 - 1. */
  lemma DeltaIsRotation(h: nat)
    requires h < TWO32
    ensures Delta(h) == h * 0x8000 - (TWO32 - 1) * (h / 0x2_0000) && Delta(h) < TWO32
  {
    assert h == h / 0x2_0000 * 0x2_0000 + h % 0x2_0000;
  }

  /** The probes are at equal distances, the distance being the hash rotated. */
  lemma {:induction false} ProbeIs(h: nat, j: nat)
    ensures Probe(h, j) == (h + j * Delta(h % TWO32)) % TWO32
  {
    var d := Delta(h % TWO32);
    if j > 0 {
      ProbeIs(h, j - 1);
      var before := h + (j - 1) * d;
      assert h + j * d == before + d;
      AddMod(before, d);
    }
  }

  /** Each of its probes is also a probe of some key the filter was made for. */
  ghost predicate AllShared(p: Bloom, keys: seq<Bytes>, bits: nat, h: nat)
    requires bits > 0
  {
    forall j :: 0 <= j < p.probes ==> SomeKeyHits(p, keys, bits, Position(Probe(h, j), bits))
  }

  lemma MarkedIff(p: Bloom, keys: seq<Bytes>, bitmap: Bytes, h: nat)
    requires bitmap != [] && OnlyKeys(p, keys, bitmap)
    ensures Marked(bitmap, h, p.probes) <==> AllShared(p, keys, 8 * |bitmap|, h)
  {
    var bits := 8 * |bitmap|;
    forall j: nat | j < p.probes
      ensures BitAt(bitmap, Position(Probe(h, j), bits)) <==> SomeKeyHits(p, keys, bits, Position(Probe(h, j), bits))
    {
    }
  }

  /** A filter made for these keys lets a key pass exactly when it shares all its probes with them. */
  lemma PassesIff(p: Bloom, keys: seq<Bytes>, filter: Bytes, key: Bytes)
    requires BloomOk(p) && |filter| >= 2 && filter[|filter| - 1] == p.probes && OnlyKeys(p, keys, filter[..|filter| - 1])
    ensures KeyMayMatch(p, key, filter) <==> AllShared(p, keys, 8 * (|filter| - 1), p.hash(key))
  {
    MarkedIff(p, keys, filter[..|filter| - 1], p.hash(key));
  }

  /** What CreateFilter's reader computes. */
  predicate KeyMayMatch(p: Bloom, key: Bytes, filter: Bytes) {
    |filter| >= 2 &&
    var probes := filter[|filter| - 1];
    probes > 30 || Marked(filter[..|filter| - 1], p.hash(key), probes)
  }

  /** KeyMayMatch's loop over the probes. */
  method MayMatch(p: Bloom, key: Bytes, filter: Bytes) returns (may: bool)
    ensures may <==> KeyMayMatch(p, key, filter)
  {
    if |filter| < 2 {
      return false;
    }
    var bits, probes := filter[..|filter| - 1], filter[|filter| - 1];
    if probes > 30 {
      return true;
    }
    var h := p.hash(key) % TWO32;
    var delta := Delta(h);
    for j := 0 to probes
      invariant Marked(bits, p.hash(key), j) && h == Probe(p.hash(key), j)
    {
      if !BitAt(bits, Position(h, 8 * |bits|)) {
        assert !BitAt(bits, Position(Probe(p.hash(key), j), 8 * |bits|));
        return false;
      }
      h := NextProbe(h, delta);
    }
    may := true;
  }
}
