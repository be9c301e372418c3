/** pb_decode.c: the stream-consuming decoder, proved to compute what `Nanopb` defines. */
module NanopbDecoder {
  import opened Keys
  import opened Coding
  import opened Nanopb
  import opened NanopbProofs
  import opened NanopbEncoder

  // The fields_seen bitmap

  /** A uint32_t as its bits, low bit first. */
  type Word = w: seq<bool> | |w| == 32 witness seq(32, _ => false)

  const ALL_BITS: Word := seq(32, _ => true)

  function ShiftRight(w: Word, n: nat): Word
    requires n < 32
  {
    seq(32, i requires 0 <= i < 32 => i + n < 32 && w[i + n])
  }

  predicate Bit(words: seq<Word>, i: nat)
    requires i < 32 * |words|
  {
    words[i / 32][i % 32]
  }

  /** The bitmap holds exactly the set. */
  ghost predicate Holds(words: seq<Word>, seen: set<nat>) {
    |words| == 2 && (forall i: nat :: i < 64 ==> (Bit(words, i) <==> i in seen)) && forall i :: i in seen ==> i < 64
  }

  method SetBit(words: seq<Word>, i: nat, ghost seen: set<nat>) returns (r: seq<Word>)
    requires Holds(words, seen) && i < 64
    ensures Holds(r, seen + {i})
  {
    r := words[i / 32 := words[i / 32][i % 32 := true]];
    forall j: nat | j < 64 ensures Bit(r, j) <==> j in seen + {i} {
      assert Bit(words, j) <==> j in seen;
    }
  }

  datatype Bitmap = Bitmap(words: seq<Word>, seen: set<nat>)

  /** The bitmaps that have the bits of the required fields seen. */
  ghost function Bitmaps(d: Desc): iset<Bitmap> {
    iset b: Bitmap | Holds(b.words, b.seen) && OnlyRequired(d, b.seen)
  }

  ghost predicate OnlyRequired(d: Desc, seen: set<nat>) {
    forall x :: x in seen ==> x < RequiredBefore(d.fields, |d.fields|)
  }

  /** The bit of a required field, while the bitmap has room for it. */
  method MarkSeen(d: Desc, i: nat, requiredIndex: nat, words: seq<Word>, ghost seen: set<nat>) returns (r: seq<Word>)
    requires i < |d.fields| && requiredIndex == RequiredBefore(d.fields, i) && Bitmap(words, seen) in Bitmaps(d)
    ensures Bitmap(r, Mark(d, i, seen)) in Bitmaps(d)
  {
    r := words;
    MarkedIsRequired(d, i, seen);
    if d.fields[i].rule.Required? && requiredIndex < MAX_REQUIRED_FIELDS {
      r := SetBit(words, requiredIndex, seen);
    }
  }

  /** The check at the end of pb_decode_noinit: whole words, then the remaining bits.  The shift is
      undefined for a count that is a multiple of 32, and the bitmap too short from 64 on. */
  method AllSeen(words: seq<Word>, count: nat, ghost seen: set<nat>) returns (all: bool)
    requires Holds(words, seen) && (forall i :: i in seen ==> i < count)
    requires count == 0 || (count < 64 && count % 32 != 0)
    ensures all <==> forall i :: 0 <= i < count ==> i in seen
  {
    if count == 0 {
      return true;
    }
    var k := 0;
    while k < count / 32
      invariant k <= count / 32
      invariant forall i: nat :: i < 32 * k ==> i in seen
    {
      if words[k] != ALL_BITS {
        var b: nat :| b < 32 && !words[k][b];
        assert !Bit(words, 32 * k + b);
        return false;
      }
      forall i: nat | 32 * k <= i < 32 * k + 32 ensures i in seen {
        assert Bit(words, i);
      }
      k := k + 1;
    }
    var wanted := ShiftRight(ALL_BITS, 32 - count % 32);
    all := words[k] == wanted;
    if all {
      forall i: nat | 32 * k <= i < count ensures i in seen {
        assert Bit(words, i);
      }
    } else {
      var b: nat :| b < 32 && words[k][b] != wanted[b];
      assert Bit(words, 32 * k + b) <==> words[k][b];
      assert wanted[b] <==> b < count % 32;
    }
  }

  /** How many required fields there are: the index the iterator has at the last field, plus one
      when that field is itself required. */
  method CountRequired(iter: FieldIter) returns (count: nat)
    requires iter.Valid()
    modifies iter
    ensures iter.Valid() && count == RequiredBefore(iter.fields, |iter.fields|)
  {
    var last := iter.pos;
    count := iter.requiredIndex;
    var more := iter.Next();
    while more
      invariant iter.Valid() && last <= |iter.fields| && count == RequiredBefore(iter.fields, last)
      invariant more ==> iter.pos == last + 1
      invariant if iter.fields == [] then last == 0 && !more else last < |iter.fields| && (!more ==> last + 1 == |iter.fields|)
      decreases |iter.fields| - last, more
    {
      last := iter.pos;
      count := iter.requiredIndex;
      more := iter.Next();
    }
    if iter.fields != [] && iter.fields[last].rule.Required? {
      count := count + 1;
    }
  }

  /** Only required fields are marked. */
  lemma {:induction false} MarkedIsRequired(d: Desc, i: nat, seen: set<nat>)
    requires i < |d.fields| && forall x :: x in seen ==> x < RequiredBefore(d.fields, |d.fields|)
    ensures forall x :: x in Mark(d, i, seen) ==> x < RequiredBefore(d.fields, |d.fields|)
  {
    RequiredGrows(d.fields, i + 1, |d.fields|);
  }

  // Streams

  class IStream {
    var rest: Bytes

    constructor (rest: Bytes)
      ensures this.rest == rest
    {
      this.rest := rest;
    }

    /** pb_readbyte. */
    method ReadByte() returns (ok: bool, byte: Byte)
      modifies this
      ensures ok == (old(rest) != [])
      ensures if ok then byte == old(rest)[0] && rest == old(rest)[1..] else rest == []
    {
      byte := 0;
      if rest == [] {
        return false, 0;
      }
      ok, byte, rest := true, rest[0], rest[1..];
    }

    /** pb_read. */
    method ReadBytes(count: nat) returns (ok: bool, buf: Bytes)
      modifies this
      ensures ok == (count <= |old(rest)|)
      ensures if ok then buf == old(rest)[..count] && rest == old(rest)[count..] else rest == old(rest)
    {
      if |rest| < count {
        return false, [];
      }
      ok, buf, rest := true, rest[..count], rest[count..];
    }

    /** pb_decode_varint32 and pb_decode_varint, with 5 and 10 bytes as the limit: the loop puts each
        group of seven bits at its shift, and stops at the width of the variable. */
    method DecodeVarint(limit: nat, width: nat) returns (ok: bool, dest: nat)
      requires limit > 0 && width > 0
      modifies this
      ensures match GetVarint(old(rest), limit)
              case None => !ok && rest == old(rest)[if |old(rest)| < limit then |old(rest)| else limit..]
              case Some((v, n)) => ok && dest == v % width && rest == old(rest)[n..]
    {
      ghost var b := rest;
      var result, i := 0, 0;
      dest := 0;
      while true
        invariant 0 <= i <= limit && i <= |b| && result >= 0 && rest == b[i..]
        invariant GetVarint(b, limit) == match GetVarint(b[i..], limit - i)
                                         case None => None
                                         case Some((v, n)) => Some((result + Pow128(i) * v, n + i))
        decreases limit - i
      {
        if i == limit {
          return false, 0;
        }
        var byte;
        ok, byte := ReadByte();
        if !ok {
          return false, 0;
        }
        ShiftStep(result, byte, i, b[i + 1..], limit - i - 1);
        assert b[i..][1..] == b[i + 1..];
        i := i + 1;
        if byte >= 128 {
          result := result + (byte - 128) * Pow128(i - 1);
        } else {
          result := result + byte * Pow128(i - 1);
          return true, result % width;
        }
      }
    }

    method DecodeVarint32() returns (ok: bool, dest: nat)
      modifies this
      ensures match ReadVarint32(old(rest))
              case None => !ok && (rest == [] <==> |old(rest)| <= 5)
              case Some(Read(v, after)) => ok && dest == v && rest == after
    {
      ok, dest := DecodeVarint(5, TWO32);
    }

    method DecodeVarint64() returns (ok: bool, dest: nat)
      modifies this
      ensures match ReadVarint64(old(rest))
              case None => !ok
              case Some(Read(v, after)) => ok && dest == v && rest == after
    {
      ok, dest := DecodeVarint(10, TWO64);
    }

    /** pb_skip_varint. */
    method SkipOverVarint() returns (ok: bool)
      modifies this
      ensures match SkipVarint(old(rest)) case None => !ok case Some(after) => ok && rest == after
    {
      while true
        invariant SkipVarint(rest) == SkipVarint(old(rest))
        decreases |rest|
      {
        var byte;
        ok, byte := ReadByte();
        if !ok || byte < 128 {
          return;
        }
      }
    }

    /** pb_skip_field. */
    method SkipOverField(wireType: nat) returns (ok: bool)
      modifies this
      ensures match SkipField(wireType, old(rest)) case None => !ok case Some(after) => ok && rest == after
    {
      var skipped: Bytes, n := [], 0;
      if wireType == WT_VARINT {
        ok := SkipOverVarint();
      } else if wireType == WT_64BIT {
        ok, skipped := ReadBytes(8);
      } else if wireType == WT_STRING {
        ok, n := DecodeVarint32();
        if ok {
          ok, skipped := ReadBytes(n);
        }
      } else if wireType == WT_32BIT {
        ok, skipped := ReadBytes(4);
      } else {
        ok := false;
      }
    }

    /** pb_decode_tag. */
    method DecodeNextTag() returns (ok: bool, tag: nat, wireType: nat, eof: bool)
      modifies this
      ensures match DecodeTag(old(rest))
              case EndOfMessage => !ok && eof
              case BadTag => !ok && !eof
              case Tag(t, w, after) => ok && tag == t && wireType == w && rest == after
    {
      tag, wireType, eof := 0, 0, false;
      var temp;
      ok, temp := DecodeVarint32();
      if !ok {
        eof := rest == [];
        return;
      }
      if temp == 0 {
        return false, 0, 0, true;
      }
      tag, wireType := temp / 8, temp % 8;
    }

    /** pb_make_string_substream; the parent stands after the substring at once. */
    method Substream() returns (ok: bool, sub: IStream)
      modifies this
      ensures fresh(sub)
      ensures match ReadVarint32(old(rest))
              case None => !ok
              case Some(Read(n, after)) => ok == (n <= |after|) && (ok ==> sub.rest == after[..n] && rest == after[n..])
    {
      sub := new IStream([]);
      var n;
      ok, n := DecodeVarint32();
      if !ok {
        return;
      }
      if |rest| < n {
        return false, sub;
      }
      sub.rest := rest[..n];
      rest := rest[n..];
    }

    /** pb_dec_varint, pb_dec_uvarint, pb_dec_svarint. */
    method DecodeInteger(k: Kind) returns (ok: bool, v: Value)
      requires k.SignedVarint? || k.UnsignedVarint? || k.ZigZagVarint?
      modifies this
      ensures match DecodeNumber(k, old(rest)) case None => !ok case Some(Read(w, after)) => ok && v == w && rest == after
    {
      v := Num(0);
      var value;
      ok, value := DecodeVarint64();
      if !ok {
        return;
      }
      var wanted: int, stored: int;
      var m := Modulus(k.size);
      if m == 1 {
        return false, v;
      }
      match k {
        case SignedVarint(size) =>
          wanted := if size == 8 then Signed(value, TWO64) else Signed(value, TWO32);
          stored := Signed(wanted, m);
        case UnsignedVarint(_) => wanted, stored := value, value % m;
        case ZigZagVarint(_) => wanted := UnZigZag(value); stored := Signed(wanted, m);
      }
      ok, v := stored == wanted, Num(stored);
    }

    /** pb_dec_bytes, pb_dec_string, pb_dec_fixed_length_bytes. */
    method DecodeBytes(k: Kind) returns (ok: bool, v: Value)
      requires k.ByteArray? || k.Text? || k.FixedBytes?
      modifies this
      ensures match DecodeBlob(k, old(rest)) case None => !ok case Some(Read(w, after)) => ok && v == w && rest == after
    {
      v := Num(0);
      var size, buf: Bytes := 0, [];
      ok, size := DecodeVarint32();
      if !ok {
        return;
      }
      match k {
        case ByteArray(cap) => if size > PB_SIZE_MAX || size > cap { return false, v; }
        case Text(cap) => if size > cap { return false, v; }
        case FixedBytes(len) =>
          if size == 0 { return true, Blob(Zeros(len)); }
          if size != len { return false, v; }
      }
      ok, buf := ReadBytes(size);
      v := Blob(buf);
    }

    /** A PB_DECODERS entry. */
    method DecodeValue(k: Kind, prior: Value) returns (ok: bool, v: Value)
      requires KindOk(k) && (k.Sub? ==> ValueIn(k, prior, false))
      modifies this
      ensures match Decode(k, old(rest), prior) case None => !ok case Some(Read(w, after)) => ok && v == w && rest == after
      decreases k, 0
    {
      v := Num(0);
      var buf: Bytes := [];
      match k {
        case Fixed4 =>
          ok, buf := ReadBytes(4);
          if ok { v := Num(DecodeFixed32(buf)); }
        case Fixed8 =>
          ok, buf := ReadBytes(8);
          if ok { v := Num(DecodeFixed64(buf)); }
        case Sub(d) =>
          var sub, slots := this, [];
          ok, sub := Substream();
          if !ok { return; }
          ok, slots := sub.DecodeInto(d, prior.slots);
          v := Msg(slots);
        case ByteArray(_) => ok, v := DecodeBytes(k);
        case Text(_) => ok, v := DecodeBytes(k);
        case FixedBytes(_) => ok, v := DecodeBytes(k);
        case _ => ok, v := DecodeInteger(k);
      }
    }

    /** The loop over a packed array, in its substream. */
    method DecodeItems(k: Kind, before: seq<Value>, max: nat) returns (ok: bool, items: seq<Value>)
      requires KindOk(k) && Packable(k)
      modifies this
      ensures match DecodePacked(k, old(rest), before, max) case None => !ok case Some(r) => ok && items == r
      decreases k, 1
    {
      items := before;
      while |rest| > 0 && |items| < max
        invariant DecodePacked(k, rest, items, max) == DecodePacked(k, old(rest), before, max)
        decreases |rest|
      {
        var v;
        ok, v := DecodeValue(k, Num(0));
        if !ok {
          return;
        }
        items := items + [v];
      }
      ok := rest == [];
    }

    /** decode_static_field. */
    method DecodeField(f: Field, wireType: nat, s: Slot) returns (ok: bool, r: Slot)
      requires FieldOk(f) && SlotIn(f, s, false)
      modifies this
      ensures match DecodeSlot(f, wireType, old(rest), s) case None => !ok case Some(Read(t, after)) => ok && r == t && rest == after
      decreases f
    {
      r := s;
      var v, blank := Num(0), DefaultValue(f.kind, f.default);
      if f.kind.Sub? {
        DefaultStored(f.kind, f.default);
      }
      match f.rule {
        case Repeated(max) =>
          var items := if s.Many? then s.items else [];
          if wireType == WT_STRING && Packable(f.kind) {
            var sub;
            ok, sub := Substream();
            if !ok { return; }
            ok, items := sub.DecodeItems(f.kind, items, max);
          } else {
            if |items| >= max { return false, s; }
            ok, v := DecodeValue(f.kind, blank);
            items := items + [v];
          }
          r := Many(items);
        case Required =>
          ok, v := DecodeValue(f.kind, if s.One? then s.value else blank);
          r := One(v);
        case Implicit =>
          ok, v := DecodeValue(f.kind, if s.One? then s.value else blank);
          r := One(v);
        case Optional =>
          ok, v := DecodeValue(f.kind, if s.Maybe? && s.opt.Some? then s.opt.value else blank);
          r := Maybe(Some(v));
        case Oneof(_) =>
          ok, v := DecodeValue(f.kind, blank);
          r := Maybe(Some(v));
      }
    }

    /** The field found, and a oneof's other members cleared. */
    method DecodeAt(d: Desc, i: nat, wireType: nat, slots: seq<Slot>) returns (ok: bool, after: seq<Slot>)
      requires DescOk(d) && MessageIn(d, slots, false) && i < |d.fields|
      modifies this
      ensures match DecodeSlot(d.fields[i], wireType, old(rest), slots[i])
              case None => !ok
              case Some(Read(s, left)) => ok && after == Store(d, slots, i, s) && rest == left && MessageIn(d, after, false)
      decreases d, 0
    {
      assert FieldOk(d.fields[i]);
      DecodedSlotStored(d.fields[i], wireType, rest, slots[i]);
      var s;
      ok, s := DecodeField(d.fields[i], wireType, slots[i]);
      after := slots;
      if ok {
        StoreStored(d, slots, i, s);
        after := Store(d, slots, i, s);
      }
    }

    /** pb_decode_noinit: the destination starts as `dest`. */
    method DecodeInto(d: Desc, dest: seq<Slot>) returns (ok: bool, slots: seq<Slot>)
      requires DescOk(d) && MessageIn(d, dest, false)
      modifies this
      ensures match DecodeMessage(d, old(rest), dest) case None => !ok case Some(m) => ok && slots == m
      decreases d, 1
    {
      slots := dest;
      ghost var seen: set<nat> := {};
      var words: seq<Word> := [seq(32, _ => false), seq(32, _ => false)];
      var iter := new FieldIter(d.fields);
      while |rest| > 0
        invariant MessageIn(d, slots, false) && iter.fields == d.fields && iter.Valid() && fresh(iter)
        invariant Bitmap(words, seen) in Bitmaps(d)
        invariant DecodeLoop(d, rest, slots, seen) == DecodeLoop(d, old(rest), dest, {})
        decreases |rest|
      {
        var tag, wireType, eof, found;
        ok, tag, wireType, eof := DecodeNextTag();
        if !ok {
          if eof { break; }
          return;
        }
        found := iter.FindTag(tag);
        if !found {
          ok := SkipOverField(wireType);
          if !ok { return; }
          continue;
        }
        if d.fields == [] {
          return false, slots;
        }
        var i := iter.pos;
        assert Find(d.fields, tag) == Some(i);
        words := MarkSeen(d, i, iter.requiredIndex, words, seen);
        seen := Mark(d, i, seen);
        ok, slots := DecodeAt(d, i, wireType, slots);
        if !ok { return; }
      }
      var count := CountRequired(iter);
      ok := AllSeen(words, count, seen);
    }
  }

  /** pb_decode over a buffer. */
  method DecodeBuffer(d: Desc, b: Bytes) returns (ok: bool, slots: seq<Slot>)
    requires DescOk(d)
    ensures match DecodeMessage(d, b, Defaults(d)) case None => !ok case Some(m) => ok && slots == m && MessageIn(d, m, false)
  {
    DefaultsStored(d);
    DecodedMessageStored(d, b, Defaults(d));
    var stream := new IStream(b);
    ok, slots := stream.DecodeInto(d, Defaults(d));
  }

  /** pb_encode into a buffer, and pb_decode of what was written, for any message that fits its
      descriptor.  Encoding fails exactly when the buffer is too small, and a sizing stream says how
      large it must be; what comes back is the message itself exactly when it is `exact`. */
  method EncodeThenDecode(d: Desc, slots: seq<Slot>, bufferSize: nat) returns (needed: nat, fits: bool, ok: bool, back: seq<Slot>)
    requires DescOk(d) && MessageIn(d, slots, false) && SizesOk(d, slots)
    ensures needed == |WireFrom(d, slots, 0)| && (fits <==> needed <= bufferSize)
    ensures fits ==> ok && back == SentMessage(d, slots) && (back == slots <==> MessageIn(d, slots, true))
  {
    FittingMessageIsEncodable(d, slots, false);
    AnyMessageArrives(d, slots);
    var sizing := new OStream(false, [], 0);
    ok := sizing.Encode(d, slots);
    needed := sizing.bytesWritten;
    var stream := new OStream(true, [], bufferSize);
    fits := stream.Encode(d, slots);
    ok, back := false, [];
    if fits {
      assert stream.out == WireFrom(d, slots, 0);
      ok, back := DecodeBuffer(d, stream.out);
    }
  }
}
