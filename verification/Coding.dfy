/** util/coding.cc: little-endian fixed-width numbers and base-128 varints. */
module Coding {
  import opened Keys

  const TWO32 := 0x1_0000_0000
  const TWO64 := 0x1_0000_0000_0000_0000

  type U32 = x: int | 0 <= x < TWO32
  type U64 = x: int | 0 <= x < TWO64

  function Fixed32(v: U32): (b: Bytes)
    ensures |b| == 4
  {
    [v % 256, v / 0x100 % 256, v / 0x1_0000 % 256, v / 0x100_0000]
  }

  function DecodeFixed32(b: Bytes): U32
    requires |b| >= 4
  {
    var b0: int, b1: int, b2: int, b3: int := b[0], b[1], b[2], b[3];
    b0 + 0x100 * b1 + 0x1_0000 * b2 + 0x100_0000 * b3
  }

  lemma Digits(v: U32)
    ensures v == v % 256 + 0x100 * (v / 0x100 % 256) + 0x1_0000 * (v / 0x1_0000 % 256) + 0x100_0000 * (v / 0x100_0000 % 256)
  {
    var a := v / 0x100;
    var b := a / 0x100;
    assert b == v / 0x1_0000 && b / 0x100 == v / 0x100_0000;
  }

  lemma SmallMod(v: nat, m: nat)
    requires v < m
    ensures v % m == v
  {
  }

  lemma Fixed32RoundTrip(v: U32, tail: Bytes)
    ensures DecodeFixed32(Fixed32(v) + tail) == v
  {
    var b := Fixed32(v) + tail;
    Digits(v);
    assert b[0] == v % 256 && b[1] == v / 0x100 % 256 && b[2] == v / 0x1_0000 % 256 && b[3] == v / 0x100_0000 % 256;
  }

  lemma Fixed32Back(b: Bytes)
    requires |b| >= 4
    ensures Fixed32(DecodeFixed32(b)) == b[..4]
  {
    var v, b0: int, b1: int, b2: int, b3: int := DecodeFixed32(b), b[0], b[1], b[2], b[3];
    assert v / 0x100 == b1 + 0x100 * b2 + 0x1_0000 * b3 && v % 256 == b0;
    assert v / 0x1_0000 == b2 + 0x100 * b3 && v / 0x100_0000 == b3;
    assert Fixed32(v) == [b[0], b[1], b[2], b[3]];
  }

  function Fixed64(v: U64): (b: Bytes)
    ensures |b| == 8
  {
    Fixed32(v % TWO32) + Fixed32(v / TWO32)
  }

  function DecodeFixed64(b: Bytes): U64
    requires |b| >= 8
  {
    DecodeFixed32(b[..4]) + TWO32 * DecodeFixed32(b[4..])
  }

  lemma Fixed64RoundTrip(v: U64, tail: Bytes)
    ensures DecodeFixed64(Fixed64(v) + tail) == v
  {
    var b := Fixed64(v) + tail;
    assert b[..4] == Fixed32(v % TWO32) + [];
    assert b[4..] == Fixed32(v / TWO32) + tail;
    Fixed32RoundTrip(v % TWO32, []);
    Fixed32RoundTrip(v / TWO32, tail);
  }

  /** The varint of `v`: seven bits a byte, low bits first, the high bit on all but the last. */
  function Varint(v: nat): (b: Bytes)
    ensures |b| >= 1
  {
    if v < 128 then [v] else [128 + v % 128] + Varint(v / 128)
  }

  /** Reads a varint of at most `limit` bytes: the number, before any truncation to the width
      of the variable, and how many bytes it took. */
  function GetVarint(b: Bytes, limit: nat): (r: Option<(nat, nat)>)
    ensures r.Some? ==> 1 <= r.value.1 <= |b| && r.value.1 <= limit
  {
    if limit == 0 || b == [] then None
    else if b[0] < 128 then Some((b[0], 1))
    else
      match GetVarint(b[1..], limit - 1)
      case None => None
      case Some((v, n)) => Some((b[0] - 128 + 128 * v, n + 1))
  }

  lemma {:induction false} VarintRoundTrip(v: nat, tail: Bytes, limit: nat)
    requires |Varint(v)| <= limit
    ensures GetVarint(Varint(v) + tail, limit) == Some((v, |Varint(v)|))
  {
    var b := Varint(v) + tail;
    if v >= 128 {
      assert b[0] == 128 + v % 128 && b[1..] == Varint(v / 128) + tail;
      VarintRoundTrip(v / 128, tail, limit - 1);
    } else {
      assert b[0] == v;
    }
  }

  /** A varint cut short is never taken for a number. */
  lemma {:induction false} VarintTruncated(v: nat, n: nat, limit: nat)
    requires n < |Varint(v)|
    ensures GetVarint(Varint(v)[..n], limit) == None
  {
    if n > 0 && limit > 0 {
      assert Varint(v)[..n][1..] == Varint(v / 128)[..n - 1];
      VarintTruncated(v / 128, n - 1, limit - 1);
    }
  }

  lemma VarintLengths(v: nat)
    ensures v < TWO32 ==> |Varint(v)| <= 5
    ensures v < TWO64 ==> |Varint(v)| <= 10
  {
    var a, b, c, d := v / 128, v / 128 / 128, v / 128 / 128 / 128, v / 128 / 128 / 128 / 128;
    var e := d / 128;
    assert |Varint(v)| <= 1 + |Varint(a)| <= 2 + |Varint(b)| <= 3 + |Varint(c)| <= 4 + |Varint(d)| <= 5 + |Varint(e)|;
    if v < TWO64 && d >= 128 {
      var f, g, h := e / 128, e / 128 / 128, e / 128 / 128 / 128;
      var i := h / 128;
      assert |Varint(e)| <= 1 + |Varint(f)| <= 2 + |Varint(g)| <= 3 + |Varint(h)| <= 4 + |Varint(i)|;
    }
  }

  /** EncodeVarint64. */
  method EncodeVarint64(v0: U64) returns (buf: Bytes)
    ensures buf == Varint(v0)
  {
    var v := v0;
    buf := [];
    while v >= 128
      invariant 0 <= v && buf + Varint(v) == Varint(v0)
    {
      assert buf + Varint(v) == buf + [128 + v % 128] + Varint(v / 128);
      buf := buf + [128 + v % 128];
      v := v / 128;
    }
    buf := buf + [v];
  }

  /** One byte more in front. */
  lemma Longer(v: nat, next: nat, rest: Bytes)
    requires v >= 128 && next == v / 128 && Varint(next) == rest
    ensures Varint(v) == [v % 128 + 128] + rest
  {
  }

  lemma Shifts(v: nat)
    ensures v / 0x80 / 128 == v / 0x4000 && v / 0x4000 / 128 == v / 0x20_0000 && v / 0x20_0000 / 128 == v / 0x1000_0000
  {
  }

  /** EncodeVarint32: the same bytes, written out case by case. */
  method EncodeVarint32(v: U32) returns (buf: Bytes)
    ensures buf == Varint(v)
  {
    Shifts(v);
    if v < 0x80 {
      buf := [v];
    } else if v < 0x4000 {
      buf := [v % 128 + 128, v / 0x80];
    } else if v < 0x20_0000 {
      buf := [v % 128 + 128, v / 0x80 % 128 + 128, v / 0x4000];
      Longer(v / 0x80, v / 0x4000, buf[2..]);
      Longer(v, v / 0x80, buf[1..]);
    } else if v < 0x1000_0000 {
      buf := [v % 128 + 128, v / 0x80 % 128 + 128, v / 0x4000 % 128 + 128, v / 0x20_0000];
      Longer(v / 0x4000, v / 0x20_0000, buf[3..]);
      Longer(v / 0x80, v / 0x4000, buf[2..]);
      Longer(v, v / 0x80, buf[1..]);
    } else {
      buf := [v % 128 + 128, v / 0x80 % 128 + 128, v / 0x4000 % 128 + 128, v / 0x20_0000 % 128 + 128, v / 0x1000_0000];
      Longer(v / 0x20_0000, v / 0x1000_0000, buf[4..]);
      Longer(v / 0x4000, v / 0x20_0000, buf[3..]);
      Longer(v / 0x80, v / 0x4000, buf[2..]);
      Longer(v, v / 0x80, buf[1..]);
    }
  }

  function Pow128(n: nat): (p: nat)
    ensures p >= 1
  {
    if n == 0 then 1 else 128 * Pow128(n - 1)
  }

  /** GetVarint32PtrFallback and GetVarint64Ptr, with 5 or 10 as the limit: the loop adds each
      group of seven bits at its shift. */
  method GetVarintPtr(p: Bytes, limit: nat, width: nat) returns (r: Option<(nat, nat)>)
    requires width > 0
    ensures r == match GetVarint(p, limit) case None => None case Some((v, n)) => Some((v % width, n))
  {
    var result, i := 0, 0;
    while i < limit && i < |p|
      invariant 0 <= i <= limit && i <= |p| && result >= 0
      invariant GetVarint(p, limit) == match GetVarint(p[i..], limit - i)
                                       case None => None
                                       case Some((v, n)) => Some((result + Pow128(i) * v, n + i))
    {
      var byte := p[i];
      assert p[i..][1..] == p[i + 1..];
      ShiftStep(result, byte, i, p[i + 1..], limit - i - 1);
      i := i + 1;
      if byte >= 128 {
        result := result + (byte - 128) * Pow128(i - 1);
        assert i <= limit && i <= |p|;
      } else {
        result := result + byte * Pow128(i - 1);
        return Some((result % width, i));
      }
    }
    r := None;
  }

  lemma ShiftStep(result: nat, byte: Byte, i: nat, rest: Bytes, limit: nat)
    ensures match GetVarint(rest, limit)
            case None => true
            case Some((v, n)) => result + Pow128(i) * (byte - 128 + 128 * v) == result + (byte - 128) * Pow128(i) + Pow128(i + 1) * v
    ensures byte * Pow128(i) == Pow128(i) * byte >= 0
    ensures byte >= 128 ==> (byte - 128) * Pow128(i) >= 0
  {
  }

  /** The number the low seven bits of each byte make, the first byte lowest. */
  function Septets(b: Bytes): nat {
    if b == [] then 0 else Septets(b[..|b| - 1]) + b[|b| - 1] % 128 * Pow128(|b| - 1)
  }

  lemma {:induction false} SeptetsFront(b: Bytes)
    requires b != []
    ensures Septets(b) == b[0] % 128 + 128 * Septets(b[1..])
  {
    var n := |b| - 1;
    if n > 0 {
      SeptetsFront(b[..n]);
      assert b[..n][1..] == b[1..][..n - 1];
      TimesPower(b[n] % 128, n);
    } else {
      assert b[..0] == [] && b[1..] == [];
    }
  }

  lemma TimesPower(x: nat, n: nat)
    requires n > 0
    ensures x * Pow128(n) == 128 * (x * Pow128(n - 1))
  {
  }

  /** The first `n` bytes are one varint: the high bit is set on all but the last of them. */
  predicate IsVarint(b: Bytes, n: nat) {
    1 <= n <= |b| && b[n - 1] < 128 && forall i :: 0 <= i < n - 1 ==> b[i] >= 128
  }

  lemma {:induction false} VarintIsRead(b: Bytes, limit: nat, n: nat)
    requires IsVarint(b, n) && n <= limit
    ensures GetVarint(b, limit) == Some((Septets(b[..n]), n))
  {
    SeptetsFront(b[..n]);
    if n > 1 {
      var rest := b[1..];
      assert b[..n][1..] == rest[..n - 1];
      assert forall i :: 0 <= i < n - 2 ==> rest[i] == b[i + 1];
      VarintIsRead(rest, limit - 1, n - 1);
    }
  }

  lemma {:induction false} ReadIsVarint(b: Bytes, limit: nat)
    ensures GetVarint(b, limit).Some? ==> IsVarint(b, GetVarint(b, limit).value.1)
  {
    if limit > 0 && b != [] && b[0] >= 128 {
      var rest := b[1..];
      ReadIsVarint(rest, limit - 1);
      assert forall i :: 1 <= i < |b| ==> b[i] == rest[i - 1];
    }
  }

  /** A varint is read exactly when one is there within the limit, and for the number its seven-bit
      groups make. */
  lemma VarintIsExact(b: Bytes, limit: nat, v: nat, n: nat)
    ensures GetVarint(b, limit) == Some((v, n)) <==> IsVarint(b, n) && n <= limit && v == Septets(b[..n])
  {
    ReadIsVarint(b, limit);
    if IsVarint(b, n) && n <= limit {
      VarintIsRead(b, limit, n);
    }
  }

  /** The number any bytes make, the first byte lowest. */
  function LittleEndian(b: Bytes): nat {
    if b == [] then 0 else b[0] + 256 * LittleEndian(b[1..])
  }

  lemma LittleEndian4(a: Bytes, b: Bytes)
    requires |a| == 4
    ensures LittleEndian(a + b) == DecodeFixed32(a) + TWO32 * LittleEndian(b)
  {
    var c := a + b;
    assert c[1..][1..][1..][1..] == b && c[1..] == a[1..] + b && c[1..][1..] == a[2..] + b && c[1..][1..][1..] == a[3..] + b;
    var a0: int, a1: int, a2: int, a3: int := a[0], a[1], a[2], a[3];
    assert LittleEndian(a[3..] + b) == a3 + 256 * LittleEndian(b);
    assert LittleEndian(a[2..] + b) == a2 + 256 * LittleEndian(a[3..] + b);
    assert LittleEndian(a[1..] + b) == a1 + 256 * LittleEndian(a[2..] + b);
    assert LittleEndian(c) == a0 + 256 * LittleEndian(a[1..] + b);
  }

  /** Fixed-width numbers are little-endian. */
  lemma FixedIsLittleEndian(b: Bytes)
    ensures |b| >= 4 ==> DecodeFixed32(b) == LittleEndian(b[..4])
    ensures |b| >= 8 ==> DecodeFixed64(b) == LittleEndian(b[..8])
  {
    if |b| >= 4 {
      LittleEndian4(b[..4], []);
      assert b[..4] + [] == b[..4];
    }
    if |b| >= 8 {
      LittleEndian4(b[4..8], []);
      LittleEndian4(b[..4], b[4..8]);
      assert b[4..8] + [] == b[4..8] && b[..4] + b[4..8] == b[..8];
    }
  }

  // Fields one after the other

  /** PutLengthPrefixedSlice. */
  function Slice(b: Bytes): Bytes {
    Varint(|b|) + b
  }

  datatype Got<+T> = Got(value: T, rest: Bytes)

  /** GetVarint32, GetVarint64. */
  function Get32(b: Bytes): (r: Option<Got<nat>>)
    ensures r.Some? ==> |r.value.rest| < |b|
  {
    match GetVarint(b, 5) case None => None case Some((v, n)) => Some(Got(v % TWO32, b[n..]))
  }

  function Get64(b: Bytes): (r: Option<Got<nat>>)
    ensures r.Some? ==> |r.value.rest| < |b|
  {
    match GetVarint(b, 10) case None => None case Some((v, n)) => Some(Got(v % TWO64, b[n..]))
  }

  /** GetLengthPrefixedSlice. */
  function GetSlice(b: Bytes): (r: Option<Got<Bytes>>)
    ensures r.Some? ==> |r.value.rest| < |b|
  {
    match Get32(b)
    case None => None
    case Some(Got(n, rest)) => if n <= |rest| then Some(Got(rest[..n], rest[n..])) else None
  }

  lemma Back32(v: nat, tail: Bytes)
    requires v < TWO32
    ensures Get32(Varint(v) + tail) == Some(Got(v, tail))
  {
    VarintLengths(v);
    VarintRoundTrip(v, tail, 5);
    SmallMod(v, TWO32);
    assert (Varint(v) + tail)[|Varint(v)|..] == tail;
  }

  lemma Back64(v: nat, tail: Bytes)
    requires v < TWO64
    ensures Get64(Varint(v) + tail) == Some(Got(v, tail))
  {
    VarintLengths(v);
    VarintRoundTrip(v, tail, 10);
    SmallMod(v, TWO64);
    assert (Varint(v) + tail)[|Varint(v)|..] == tail;
  }

  lemma BackSlice(s: Bytes, tail: Bytes)
    requires |s| < TWO32
    ensures GetSlice(Slice(s) + tail) == Some(Got(s, tail))
  {
    assert Slice(s) + tail == Varint(|s|) + (s + tail);
    Back32(|s|, s + tail);
    assert (s + tail)[..|s|] == s && (s + tail)[|s|..] == tail;
  }

  /** A slice cut short is never taken for a slice. */
  lemma SliceTruncated(s: Bytes, n: nat)
    requires |s| < TWO32 && n < |Slice(s)|
    ensures GetSlice(Slice(s)[..n]) == None
  {
    var header := Varint(|s|);
    if n < |header| {
      VarintTruncated(|s|, n, 5);
      assert Slice(s)[..n] == header[..n];
    } else {
      var some := s[..n - |header|];
      assert Slice(s)[..n] == header + some;
      Back32(|s|, some);
    }
  }
}
