/** pb_encode.c and pb_common.c: output streams, the field iterator, and the encoder.

    A sizing stream counts and writes nothing.  Every encoding method is proved to add exactly the
    bytes `Nanopb` prescribes, on a sizing stream as on a writing one, so a length prefix taken from
    a sizing pass is the length of what follows. */
module NanopbEncoder {
  import opened Keys
  import opened Coding
  import opened Nanopb
  import opened NanopbProofs

  // What C's types allow, and what the encoder itself rejects

  predicate Typed(k: Kind, v: Value)
    decreases k
  {
    match k
    case SignedVarint(_) => v.Num? && -(TWO64 / 2) <= v.n < TWO64 / 2
    case UnsignedVarint(_) => v.Num? && 0 <= v.n < TWO64
    case ZigZagVarint(_) => v.Num? && -(TWO64 / 2) <= v.n < TWO64 / 2
    case Fixed4 => v.Num?
    case Fixed8 => v.Num?
    case ByteArray(_) => v.Blob?
    case Text(cap) => v.Blob? && |v.bytes| <= cap + 1
    case FixedBytes(len) => v.Blob? && |v.bytes| == len
    case Sub(d) => v.Msg? && MessageTyped(d, v.slots)
  }

  predicate SlotTyped(f: Field, s: Slot)
    decreases f
  {
    match f.rule
    case Required => s.One? && Typed(f.kind, s.value)
    case Implicit => s.One? && Typed(f.kind, s.value)
    case Optional => s.Maybe? && (s.opt.Some? ==> Typed(f.kind, s.opt.value))
    case Oneof(_) => s.Maybe? && (s.opt.Some? ==> Typed(f.kind, s.opt.value))
    case Repeated(max) => s.Many? && forall j :: 0 <= j < |s.items| ==> Typed(f.kind, s.items[j])
  }

  predicate MessageTyped(d: Desc, slots: seq<Slot>)
    decreases d
  {
    |slots| == |d.fields| && forall i :: 0 <= i < |d.fields| ==> SlotTyped(d.fields[i], slots[i])
  }

  /** No "invalid data_size", "bytes size exceeded" or "array max size exceeded". */
  predicate Encodable(k: Kind, v: Value)
    decreases k
  {
    match k
    case SignedVarint(size) => size in {1, 2, 4, 8}
    case UnsignedVarint(size) => size in {1, 2, 4, 8}
    case ZigZagVarint(size) => size in {1, 2, 4, 8}
    case ByteArray(cap) => v.Blob? && |v.bytes| <= cap
    case Sub(d) => v.Msg? && MessageEncodable(d, v.slots)
    case _ => true
  }

  predicate SlotEncodable(f: Field, s: Slot)
    decreases f
  {
    match s
    case One(v) => (f.rule.Implicit? && IsZero(f.kind, v)) || Encodable(f.kind, v)
    case Maybe(o) => o.Some? ==> Encodable(f.kind, o.value)
    case Many(items) =>
      items == [] || (f.rule.Repeated? && |items| <= f.rule.max && forall j :: 0 <= j < |items| ==> Encodable(f.kind, items[j]))
  }

  predicate MessageEncodable(d: Desc, slots: seq<Slot>)
    decreases d
  {
    forall i :: 0 <= i < |d.fields| && i < |slots| ==> SlotEncodable(d.fields[i], slots[i])
  }

  predicate AllEncodable(k: Kind, items: seq<Value>) {
    forall j :: 0 <= j < |items| ==> Encodable(k, items[j])
  }

  lemma FittingIsEncodable(k: Kind, v: Value, exact: bool)
    requires KindOk(k) && ValueIn(k, v, exact)
    ensures Typed(k, v) && Encodable(k, v)
    decreases k, 0
  {
    if k.Sub? {
      FittingMessageIsEncodable(k.desc, v.slots, exact);
    }
  }

  lemma FittingMessageIsEncodable(d: Desc, slots: seq<Slot>, exact: bool)
    requires DescOk(d) && MessageIn(d, slots, exact)
    ensures MessageTyped(d, slots) && MessageEncodable(d, slots)
    decreases d, 1
  {
    forall i | 0 <= i < |d.fields| ensures SlotTyped(d.fields[i], slots[i]) && SlotEncodable(d.fields[i], slots[i]) {
      var f, s := d.fields[i], slots[i];
      assert FieldOk(f) && SlotIn(f, s, exact);
      match s {
        case One(v) => FittingIsEncodable(f.kind, v, exact);
        case Maybe(o) => if o.Some? { FittingIsEncodable(f.kind, o.value, exact); }
        case Many(items) =>
          forall j | 0 <= j < |items| ensures Typed(f.kind, items[j]) && Encodable(f.kind, items[j]) {
            FittingIsEncodable(f.kind, items[j], exact);
          }
      }
    }
  }

  // How the wire format splits

  lemma {:induction false} WireItemsSplit(k: Kind, items: seq<Value>, i: nat)
    requires i <= |items|
    ensures WireItems(k, items) == WireItems(k, items[..i]) + WireItems(k, items[i..])
    decreases i
  {
    if i > 0 {
      WireItemsSplit(k, items[1..], i - 1);
      assert items[..i][1..] == items[1..][..i - 1] && items[1..][i - 1..] == items[i..];
    } else {
      assert items[0..] == items;
    }
  }

  lemma WireItemsSnoc(k: Kind, items: seq<Value>, i: nat)
    requires i < |items|
    ensures WireItems(k, items[..i + 1]) == WireItems(k, items[..i]) + Wire(k, items[i])
  {
    WireItemsSplit(k, items[..i + 1], i);
    assert items[..i + 1][..i] == items[..i] && items[..i + 1][i..] == [items[i]];
  }

  lemma OneTagged(tag: nat, k: Kind, items: seq<Value>)
    requires items != []
    ensures TaggedItems(tag, k, items) == TagBytes(tag, WireType(k)) + Wire(k, items[0]) + TaggedItems(tag, k, items[1..])
  {
  }

  lemma Glue(one: Bytes, x: Bytes, y: Bytes, more: Bytes)
    requires more == x + y
    ensures one + more == one + x + y
  {
  }

  lemma {:induction false} TaggedItemsSplit(tag: nat, k: Kind, items: seq<Value>, i: nat)
    requires i <= |items|
    ensures TaggedItems(tag, k, items) == TaggedItems(tag, k, items[..i]) + TaggedItems(tag, k, items[i..])
    decreases i
  {
    if i > 0 {
      var rest, front, back := items[1..], items[..i], items[i..];
      TaggedItemsSplit(tag, k, rest, i - 1);
      assert front[1..] == rest[..i - 1] && rest[i - 1..] == back;
      OneTagged(tag, k, items);
      OneTagged(tag, k, front);
      Glue(TagBytes(tag, WireType(k)) + Wire(k, items[0]), TaggedItems(tag, k, front[1..]), TaggedItems(tag, k, back), TaggedItems(tag, k, rest));
    } else {
      assert items[0..] == items;
    }
  }

  lemma TaggedItemsSnoc(tag: nat, k: Kind, items: seq<Value>, i: nat)
    requires i < |items|
    ensures TaggedItems(tag, k, items[..i + 1]) == TaggedItems(tag, k, items[..i]) + (TagBytes(tag, WireType(k)) + Wire(k, items[i]))
  {
    TaggedItemsSplit(tag, k, items[..i + 1], i);
    assert items[..i + 1][..i] == items[..i] && items[..i + 1][i..] == [items[i]];
    assert TaggedItems(tag, k, [items[i]]) == TagBytes(tag, WireType(k)) + Wire(k, items[i]);
  }

  /** The size encode_array takes for granted for fixed-width items. */
  lemma {:induction false} FixedLength(k: Kind, width: nat, items: seq<Value>)
    requires (k.Fixed4? && width == 4) || (k.Fixed8? && width == 8)
    requires forall j :: 0 <= j < |items| ==> items[j].Num?
    ensures |WireItems(k, items)| == width * |items|
  {
    if items != [] {
      FixedLength(k, width, items[1..]);
    }
  }

  // The field iterator

  /** pb_field_iter_t over a descriptor's fields; the terminator after them has tag zero. */
  class FieldIter {
    const fields: seq<Field>
    var pos: nat
    var requiredIndex: nat

    predicate Valid()
      reads this
    {
      (if fields == [] then pos == 0 else pos < |fields|) && requiredIndex == RequiredBefore(fields, pos)
    }

    /** pb_field_iter_begin. */
    constructor (fields: seq<Field>)
      ensures this.fields == fields && Valid() && pos == 0
    {
      this.fields := fields;
      pos, requiredIndex := 0, 0;
    }

    /** pb_field_iter_next: false when it is back at the beginning. */
    method Next() returns (more: bool)
      requires Valid()
      modifies this
      ensures Valid()
      ensures more == (old(pos) + 1 < |fields|)
      ensures pos == if more then old(pos) + 1 else 0
    {
      if fields == [] {
        return false;
      }
      if pos + 1 == |fields| {
        pos, requiredIndex := 0, 0;
        more := false;
      } else {
        if fields[pos].rule.Required? {
          requiredIndex := requiredIndex + 1;
        }
        pos := pos + 1;
        more := true;
      }
    }

    /** pb_field_iter_find: from the current field, once round. */
    method FindTag(tag: nat) returns (found: bool)
      requires Valid()
      modifies this
      ensures Valid()
      ensures found <==> (exists i :: 0 <= i < |fields| && fields[i].tag == tag) || (fields == [] && tag == 0)
      ensures found && fields != [] ==> fields[pos].tag == tag
      ensures !found ==> pos == old(pos)
    {
      var start := pos;
      if fields == [] {
        return tag == 0;
      }
      if fields[pos].tag == tag {
        return true;
      }
      var _ := Next();
      while pos != start
        invariant Valid()
        invariant start < pos ==> forall i :: start <= i < pos ==> fields[i].tag != tag
        invariant pos <= start ==> forall i :: start <= i < |fields| || 0 <= i < pos ==> fields[i].tag != tag
        decreases if start < pos then |fields| - pos + start else start - pos
      {
        if fields[pos].tag == tag {
          return true;
        }
        var _ := Next();
      }
      found := false;
    }
  }

  // Streams

  /** The fields of a pb_ostream_t; `out` is what the callback has been given. */
  datatype Stream = Stream(writing: bool, out: Bytes, bytesWritten: nat, maxSize: nat)

  /** From `a` to `b` exactly `w` is written, or not all of it: when the value is not `good`, or
      a writing stream has no room. */
  predicate Wrote(a: Stream, w: Bytes, good: bool, ok: bool, b: Stream) {
    && b.writing == a.writing && b.maxSize == a.maxSize
    && ok == (good && (a.writing ==> a.bytesWritten + |w| <= a.maxSize))
    && (ok ==> b.bytesWritten == a.bytesWritten + |w| && b.out == if a.writing then a.out + w else a.out)
    && (!a.writing ==> b.out == a.out)
    && (a.writing ==> a.out <= b.out <= a.out + w && b.bytesWritten == a.bytesWritten + |b.out| - |a.out|)
  }

  lemma WroteBoth(a: Stream, w: Bytes, good: bool, b: Stream, w': Bytes, good': bool, ok': bool, c: Stream)
    requires Wrote(a, w, good, true, b) && Wrote(b, w', good', ok', c)
    ensures Wrote(a, w + w', good && good', ok', c)
  {
    assert a.out + w + w' == a.out + (w + w');
  }

  lemma WroteFirst(a: Stream, w: Bytes, good: bool, b: Stream, w': Bytes, good': bool)
    requires Wrote(a, w, good, false, b)
    ensures Wrote(a, w + w', good && good', false, b)
  {
    assert a.out + w + w' == a.out + (w + w');
  }

  /** The top bit of the last byte unset. */
  function Unmarked(b: Bytes): Bytes
    requires b != []
  {
    var last := b[|b| - 1];
    b[..|b| - 1] + [if last >= 128 then last - 128 else last]
  }

  lemma ItemsNext(k: Kind, items: seq<Value>, i: nat, start: Stream, before: Stream, ok: bool, end: Stream)
    requires i < |items|
    requires Wrote(start, WireItems(k, items[..i]), AllEncodable(k, items[..i]), true, before)
    requires Wrote(before, Wire(k, items[i]), Encodable(k, items[i]), ok, end)
    ensures Wrote(start, WireItems(k, items[..i + 1]), AllEncodable(k, items[..i + 1]), ok, end)
  {
    WireItemsSnoc(k, items, i);
    AllEncodableSplit(k, items[..i + 1], i);
    assert items[..i + 1][..i] == items[..i] && items[..i + 1][i..] == [items[i]];
    WroteBoth(start, WireItems(k, items[..i]), AllEncodable(k, items[..i]), before, Wire(k, items[i]), Encodable(k, items[i]), ok, end);
  }

  lemma ItemsFail(k: Kind, items: seq<Value>, i: nat, start: Stream, end: Stream)
    requires i <= |items| && Wrote(start, WireItems(k, items[..i]), AllEncodable(k, items[..i]), false, end)
    ensures Wrote(start, WireItems(k, items), AllEncodable(k, items), false, end)
  {
    WireItemsSplit(k, items, i);
    AllEncodableSplit(k, items, i);
    WroteFirst(start, WireItems(k, items[..i]), AllEncodable(k, items[..i]), end, WireItems(k, items[i..]), AllEncodable(k, items[i..]));
  }

  lemma TaggedItemsNext(tag: nat, k: Kind, items: seq<Value>, i: nat, start: Stream, before: Stream, ok: bool, end: Stream)
    requires i < |items|
    requires Wrote(start, TaggedItems(tag, k, items[..i]), AllEncodable(k, items[..i]), true, before)
    requires Wrote(before, TagBytes(tag, WireType(k)) + Wire(k, items[i]), Encodable(k, items[i]), ok, end)
    ensures Wrote(start, TaggedItems(tag, k, items[..i + 1]), AllEncodable(k, items[..i + 1]), ok, end)
  {
    TaggedItemsSnoc(tag, k, items, i);
    AllEncodableSplit(k, items[..i + 1], i);
    assert items[..i + 1][..i] == items[..i] && items[..i + 1][i..] == [items[i]];
    WroteBoth(start, TaggedItems(tag, k, items[..i]), AllEncodable(k, items[..i]),
      before, TagBytes(tag, WireType(k)) + Wire(k, items[i]), Encodable(k, items[i]), ok, end);
  }

  lemma TaggedItemsFail(tag: nat, k: Kind, items: seq<Value>, i: nat, start: Stream, end: Stream)
    requires i <= |items| && Wrote(start, TaggedItems(tag, k, items[..i]), AllEncodable(k, items[..i]), false, end)
    ensures Wrote(start, TaggedItems(tag, k, items), AllEncodable(k, items), false, end)
  {
    TaggedItemsSplit(tag, k, items, i);
    AllEncodableSplit(k, items, i);
    WroteFirst(start, TaggedItems(tag, k, items[..i]), AllEncodable(k, items[..i]),
      end, TaggedItems(tag, k, items[i..]), AllEncodable(k, items[i..]));
  }

  lemma AllEncodableSplit(k: Kind, items: seq<Value>, i: nat)
    requires i <= |items|
    ensures AllEncodable(k, items) <==> AllEncodable(k, items[..i]) && AllEncodable(k, items[i..])
  {
    assert items == items[..i] + items[i..];
  }

  /** The groups of seven bits put out when `v` is left of `value`, each marked as not the last. */
  ghost predicate Marked(value: nat, v: nat, b: Bytes) {
    if v > 0 then b + Varint(v) == Varint(value) else b != [] && Unmarked(b) == Varint(value)
  }

  lemma OneMoreGroup(value: nat, v: nat, b: Bytes)
    requires v > 0 && Marked(value, v, b)
    ensures Marked(value, v / 128, b + [v % 128 + 128])
  {
    if v < 128 {
      LastGroup(b, v);
    } else {
      Regroup(b, [v % 128 + 128], Varint(v / 128));
    }
  }

  lemma LastGroup(b: Bytes, v: nat)
    requires v < 128
    ensures Unmarked(b + [v + 128]) == b + [v]
  {
  }

  lemma Regroup(a: Bytes, b: Bytes, c: Bytes)
    ensures a + b + c == a + (b + c)
  {
  }

  /** The loop of pb_encode_varint. */
  method VarintGroups(value: nat) returns (buffer: Bytes)
    requires value > 0
    ensures buffer != [] && Unmarked(buffer) == Varint(value)
  {
    buffer := [];
    var v := value;
    while v > 0
      invariant Marked(value, v, buffer)
    {
      OneMoreGroup(value, v, buffer);
      buffer := buffer + [v % 128 + 128];
      v := v / 128;
    }
  }

  class OStream {
    var writing: bool
    var out: Bytes
    var bytesWritten: nat
    var maxSize: nat

    constructor (writing: bool, out: Bytes, maxSize: nat)
      ensures State() == Stream(writing, out, 0, maxSize)
    {
      this.writing, this.out, this.bytesWritten, this.maxSize := writing, out, 0, maxSize;
    }

    function State(): Stream
      reads this
    {
      Stream(writing, out, bytesWritten, maxSize)
    }

    /** pb_write. */
    method Write(buf: Bytes) returns (ok: bool)
      modifies this
      ensures Wrote(old(State()), buf, true, ok, State())
    {
      if writing {
        if bytesWritten + |buf| > maxSize {
          return false;
        }
        out := out + buf;
      }
      bytesWritten := bytesWritten + |buf|;
      ok := true;
    }

    /** pb_write with no buffer, on a sizing stream. */
    method Count(ghost w: Bytes, size: nat) returns (ok: bool)
      requires !writing && size == |w|
      modifies this
      ensures ok && Wrote(old(State()), w, true, ok, State())
    {
      bytesWritten := bytesWritten + size;
      ok := true;
    }

    /** pb_encode_varint. */
    method EncodeVarint(value: nat) returns (ok: bool)
      modifies this
      ensures Wrote(old(State()), Varint(value), true, ok, State())
    {
      if value <= 0x7f {
        ok := Write([value]);
        return;
      }
      var buffer := VarintGroups(value);
      ok := Write(Unmarked(buffer));
    }

    /** pb_encode_svarint: the doubling wraps at 64 bits. */
    method EncodeSvarint(value: int) returns (ok: bool)
      requires -(TWO64 / 2) <= value < TWO64 / 2
      modifies this
      ensures Wrote(old(State()), Varint(ZigZag(value)), true, ok, State())
    {
      var doubled := 2 * ToUnsigned(value) % TWO64;
      assert value < 0 ==> ToUnsigned(value) == value + TWO64 && doubled == 2 * value + TWO64;
      assert value >= 0 ==> ToUnsigned(value) == value && doubled == 2 * value;
      ok := EncodeVarint(if value < 0 then TWO64 - 1 - doubled else doubled);
    }

    /** pb_encode_tag_for_field. */
    method EncodeTag(tag: nat, wireType: nat) returns (ok: bool)
      modifies this
      ensures Wrote(old(State()), TagBytes(tag, wireType), true, ok, State())
    {
      ok := EncodeVarint(8 * tag + wireType);
    }

    /** pb_encode_string. */
    method EncodeString(b: Bytes) returns (ok: bool)
      modifies this
      ensures Wrote(old(State()), LengthPrefixed(b), true, ok, State())
    {
      ghost var start := State();
      ok := EncodeVarint(|b|);
      ghost var middle := State();
      if !ok {
        WroteFirst(start, Varint(|b|), true, middle, b, true);
        return;
      }
      ok := Write(b);
      WroteBoth(start, Varint(|b|), true, middle, b, true, ok, State());
    }

    /** pb_encode_submessage: a sizing pass, the length, then the message itself into a substream
        of exactly that size.  "submsg size changed" cannot happen. */
    method EncodeSubmessage(d: Desc, slots: seq<Slot>) returns (ok: bool)
      requires MessageTyped(d, slots)
      modifies this
      ensures Wrote(old(State()), LengthPrefixed(WireFrom(d, slots, 0)), MessageEncodable(d, slots), ok, State())
      decreases d, 1
    {
      ghost var start, body, good := State(), WireFrom(d, slots, 0), MessageEncodable(d, slots);
      var sub := new OStream(false, [], 0);
      ok := sub.Encode(d, slots);
      if !ok {
        return;
      }
      var size := sub.bytesWritten;
      ok := EncodeVarint(size);
      ghost var middle := State();
      if !ok {
        WroteFirst(start, Varint(size), true, middle, body, good);
        return;
      }
      if !writing {
        ok := Count(body, size);
        WroteBoth(start, Varint(size), true, middle, body, good, ok, State());
        return;
      }
      if bytesWritten + size > maxSize {
        return false;
      }
      sub := new OStream(true, out, size);
      ok := sub.Encode(d, slots);
      bytesWritten := bytesWritten + sub.bytesWritten;
      out := sub.out;
      if sub.bytesWritten != size {
        assert false;
      }
      WroteBoth(start, Varint(size), true, middle, body, good, ok, State());
    }

    /** A PB_ENCODERS entry. */
    method EncodeValue(k: Kind, v: Value) returns (ok: bool)
      requires Typed(k, v)
      modifies this
      ensures Wrote(old(State()), Wire(k, v), Encodable(k, v), ok, State())
      decreases k, 0
    {
      match k {
        case Sub(d) => ok := EncodeSubmessage(d, v.slots);
        case ByteArray(_) => ok := EncodeBytes(k, v);
        case Text(_) => ok := EncodeBytes(k, v);
        case FixedBytes(_) => ok := EncodeBytes(k, v);
        case _ => ok := EncodeNumber(k, v);
      }
    }

    method EncodeNumber(k: Kind, v: Value) returns (ok: bool)
      requires Typed(k, v) && !k.Sub? && !k.ByteArray? && !k.Text? && !k.FixedBytes?
      modifies this
      ensures Wrote(old(State()), Wire(k, v), Encodable(k, v), ok, State())
    {
      match k {
        case SignedVarint(size) =>
          if size !in {1, 2, 4, 8} { return false; }
          ok := EncodeVarint(ToUnsigned(v.n));
        case UnsignedVarint(size) =>
          if size !in {1, 2, 4, 8} { return false; }
          ok := EncodeVarint(ToUnsigned(v.n));
        case ZigZagVarint(size) =>
          if size !in {1, 2, 4, 8} { return false; }
          ok := EncodeSvarint(v.n);
        case Fixed4 => ok := Write(Fixed32(v.n % TWO32));
        case Fixed8 => ok := Write(Fixed64(v.n % TWO64));
      }
    }

    method EncodeBytes(k: Kind, v: Value) returns (ok: bool)
      requires Typed(k, v) && (k.ByteArray? || k.Text? || k.FixedBytes?)
      modifies this
      ensures Wrote(old(State()), Wire(k, v), Encodable(k, v), ok, State())
    {
      match k {
        case ByteArray(cap) =>
          if |v.bytes| > cap { return false; }
          ok := EncodeString(v.bytes);
        case Text(cap) =>
          var size := StringLength(v.bytes, cap + 1);
          ok := EncodeString(v.bytes[..size]);
        case FixedBytes(_) => ok := EncodeString(v.bytes);
      }
    }

    /** encode_array. */
    method EncodeArray(f: Field, items: seq<Value>) returns (ok: bool)
      requires f.rule.Repeated? && SlotTyped(f, Many(items)) && (writing ==> bytesWritten <= maxSize)
      modifies this
      ensures Wrote(old(State()), WireField(f, Many(items)), SlotEncodable(f, Many(items)), ok, State())
      decreases f, 0
    {
      if items == [] {
        return true;
      }
      if |items| > f.rule.max {
        return false;
      }
      if Packable(f.kind) {
        ok := EncodePacked(f.tag, f.kind, items);
      } else {
        ok := EncodeTaggedItems(f.tag, f.kind, items);
      }
    }

    /** The packed form: tag, size, items. */
    method EncodePacked(tag: nat, k: Kind, items: seq<Value>) returns (ok: bool)
      requires Packable(k) && (forall j :: 0 <= j < |items| ==> Typed(k, items[j])) && (writing ==> bytesWritten <= maxSize)
      modifies this
      ensures Wrote(old(State()), TagBytes(tag, WT_STRING) + LengthPrefixed(WireItems(k, items)), AllEncodable(k, items), ok, State())
      decreases k, 4
    {
      ghost var start, w, body, good := State(), TagBytes(tag, WT_STRING), WireItems(k, items), AllEncodable(k, items);
      ok := EncodeTag(tag, WT_STRING);
      ghost var s1 := State();
      if !ok {
        WroteFirst(start, w, true, s1, LengthPrefixed(body), good);
        return;
      }
      ok := EncodeSized(k, items);
      WroteBoth(start, w, true, s1, LengthPrefixed(body), good, ok, State());
    }

    /** The size of the items and the items. */
    method EncodeSized(k: Kind, items: seq<Value>) returns (ok: bool)
      requires Packable(k) && (forall j :: 0 <= j < |items| ==> Typed(k, items[j])) && (writing ==> bytesWritten <= maxSize)
      modifies this
      ensures Wrote(old(State()), LengthPrefixed(WireItems(k, items)), AllEncodable(k, items), ok, State())
      decreases k, 3
    {
      ghost var start, body, good := State(), WireItems(k, items), AllEncodable(k, items);
      var size;
      ok, size := PackedSize(k, items);
      if !ok {
        return;
      }
      ok := EncodeVarint(size);
      ghost var middle := State();
      if !ok {
        WroteFirst(start, Varint(size), true, middle, body, good);
        return;
      }
      if !writing {
        ok := Count(body, size);
      } else {
        ok := EncodeItems(k, items);
      }
      WroteBoth(start, Varint(size), true, middle, body, good, ok, State());
    }

    /** The total size of a packed array. */
    method PackedSize(k: Kind, items: seq<Value>) returns (ok: bool, size: nat)
      requires Packable(k) && forall j :: 0 <= j < |items| ==> Typed(k, items[j])
      ensures ok == AllEncodable(k, items)
      ensures ok ==> size == |WireItems(k, items)|
      decreases k, 2
    {
      if k.Fixed4? {
        FixedLength(k, 4, items);
        return true, 4 * |items|;
      } else if k.Fixed8? {
        FixedLength(k, 8, items);
        return true, 8 * |items|;
      }
      var sizing := new OStream(false, [], 0);
      ok := sizing.EncodeItems(k, items);
      size := sizing.bytesWritten;
    }

    /** The loop over a packed array. */
    method EncodeItems(k: Kind, items: seq<Value>) returns (ok: bool)
      requires (forall j :: 0 <= j < |items| ==> Typed(k, items[j])) && (writing ==> bytesWritten <= maxSize)
      modifies this
      ensures Wrote(old(State()), WireItems(k, items), AllEncodable(k, items), ok, State())
      decreases k, 1
    {
      ghost var start := State();
      var i := 0;
      while i < |items|
        invariant i <= |items| && Wrote(start, WireItems(k, items[..i]), AllEncodable(k, items[..i]), true, State())
      {
        ghost var before := State();
        ok := EncodeValue(k, items[i]);
        ItemsNext(k, items, i, start, before, ok, State());
        if !ok {
          ItemsFail(k, items, i + 1, start, State());
          return;
        }
        i := i + 1;
      }
      assert items[..i] == items;
      ok := true;
    }

    /** The loop over an array whose items each carry a tag. */
    method EncodeTaggedItems(tag: nat, k: Kind, items: seq<Value>) returns (ok: bool)
      requires (forall j :: 0 <= j < |items| ==> Typed(k, items[j])) && (writing ==> bytesWritten <= maxSize)
      modifies this
      ensures Wrote(old(State()), TaggedItems(tag, k, items), AllEncodable(k, items), ok, State())
      decreases k, 2
    {
      ghost var start := State();
      var i := 0;
      while i < |items|
        invariant i <= |items| && Wrote(start, TaggedItems(tag, k, items[..i]), AllEncodable(k, items[..i]), true, State())
      {
        ghost var before := State();
        ok := EncodeTagged(tag, k, items[i]);
        TaggedItemsNext(tag, k, items, i, start, before, ok, State());
        if !ok {
          TaggedItemsFail(tag, k, items, i + 1, start, State());
          return;
        }
        i := i + 1;
      }
      assert items[..i] == items;
      ok := true;
    }

    /** A tag and its value. */
    method EncodeTagged(tag: nat, k: Kind, v: Value) returns (ok: bool)
      requires Typed(k, v)
      modifies this
      ensures Wrote(old(State()), TagBytes(tag, WireType(k)) + Wire(k, v), Encodable(k, v), ok, State())
      decreases k, 1
    {
      ghost var start := State();
      ok := EncodeTag(tag, WireType(k));
      ghost var middle := State();
      if !ok {
        WroteFirst(start, TagBytes(tag, WireType(k)), true, middle, Wire(k, v), Encodable(k, v));
        return;
      }
      ok := EncodeValue(k, v);
      WroteBoth(start, TagBytes(tag, WireType(k)), true, middle, Wire(k, v), Encodable(k, v), ok, State());
    }

    /** encode_basic_field. */
    method EncodeField(f: Field, s: Slot) returns (ok: bool)
      requires SlotTyped(f, s) && (writing ==> bytesWritten <= maxSize)
      modifies this
      ensures Wrote(old(State()), WireField(f, s), SlotEncodable(f, s), ok, State())
      decreases f, 1
    {
      match f.rule {
        case Required => ok := EncodeTagged(f.tag, f.kind, s.value);
        case Implicit =>
          var zero := CheckDefault(f.kind, s.value);
          if zero {
            return true;
          }
          ok := EncodeTagged(f.tag, f.kind, s.value);
        case Optional =>
          if s.opt.None? {
            return true;
          }
          ok := EncodeTagged(f.tag, f.kind, s.opt.value);
        case Oneof(_) =>
          if s.opt.None? {
            return true;
          }
          ok := EncodeTagged(f.tag, f.kind, s.opt.value);
        case Repeated(_) => ok := EncodeArray(f, s.items);
      }
    }

    /** pb_encode. */
    method Encode(d: Desc, slots: seq<Slot>) returns (ok: bool)
      requires MessageTyped(d, slots) && (writing ==> bytesWritten <= maxSize)
      modifies this
      ensures Wrote(old(State()), WireFrom(d, slots, 0), MessageEncodable(d, slots), ok, State())
      decreases d, 0
    {
      var iter := new FieldIter(d.fields);
      if d.fields == [] {
        return true;
      }
      ghost var start := State();
      var more := true;
      while more
        invariant iter.fields == d.fields && iter.Valid() && fresh(iter)
        invariant more ==> Wrote(start, WireUpTo(d, slots, iter.pos), EncodableUpTo(d, slots, iter.pos), true, State())
        invariant !more ==> Wrote(start, WireUpTo(d, slots, |slots|), EncodableUpTo(d, slots, |slots|), true, State())
        decreases if more then |slots| - iter.pos else -1
      {
        var i := iter.pos;
        ghost var before := State();
        ok := EncodeField(d.fields[i], slots[i]);
        var w, g := WireField(d.fields[i], slots[i]), SlotEncodable(d.fields[i], slots[i]);
        WroteBoth(start, WireUpTo(d, slots, i), EncodableUpTo(d, slots, i), before, w, g, ok, State());
        if !ok {
          WireFromSplit(d, slots, i + 1);
          WroteFirst(start, WireUpTo(d, slots, i + 1), EncodableUpTo(d, slots, i + 1), State(), WireFrom(d, slots, i + 1), MessageEncodable(d, slots));
          EncodableAll(d, slots, i + 1);
          return;
        }
        more := iter.Next();
      }
      WireFromSplit(d, slots, |slots|);
      EncodableAll(d, slots, |slots|);
      ok := true;
    }
  }

  /** pb_check_proto3_default_value: the first bytes of a value, or every field of a submessage. */
  method CheckDefault(k: Kind, v: Value) returns (zero: bool)
    requires Typed(k, v)
    ensures zero == IsZero(k, v)
    decreases k
  {
    match k {
      case ByteArray(_) => zero := |v.bytes| == 0;
      case Text(_) => zero := v.bytes == [] || v.bytes[0] == 0;
      case FixedBytes(len) => zero := len == 0;
      case Sub(d) =>
        var iter := new FieldIter(d.fields);
        if d.fields == [] {
          return true;
        }
        var more := true;
        while more
          invariant iter.fields == d.fields && iter.Valid() && fresh(iter)
          invariant forall j :: 0 <= j < (if more then iter.pos else |d.fields|) ==> SlotIsZero(d.fields[j], v.slots[j])
          decreases if more then |d.fields| - iter.pos else -1
        {
          zero := CheckField(d.fields[iter.pos], v.slots[iter.pos]);
          if !zero {
            return;
          }
          more := iter.Next();
        }
        zero := true;
      case _ => zero := v.n == 0;
    }
  }

  method CheckField(f: Field, s: Slot) returns (zero: bool)
    requires SlotTyped(f, s)
    ensures zero == SlotIsZero(f, s)
    decreases f
  {
    match s {
      case One(v) => zero := CheckDefault(f.kind, v);
      case Maybe(o) => if o.None? { return true; } zero := CheckDefault(f.kind, o.value);
      case Many(items) => if items == [] { return true; } zero := CheckDefault(f.kind, items[0]);
    }
  }

  method StringLength(p: Bytes, maxSize: nat) returns (size: nat)
    requires |p| <= maxSize
    ensures size <= |p| && p[..size] == CString(p)
  {
    size := 0;
    while size < maxSize && size < |p| && p[size] != 0
      invariant size <= |p| && 0 !in p[..size]
    {
      size := size + 1;
    }
    CStringIs(p, size);
  }

  lemma {:induction false} CStringIs(p: Bytes, n: nat)
    requires n <= |p| && 0 !in p[..n] && (n < |p| ==> p[n] == 0)
    ensures CString(p) == p[..n]
  {
    if n > 0 {
      assert p[..n] == [p[0]] + p[1..][..n - 1];
      CStringIs(p[1..], n - 1);
    }
  }

  ghost function WireUpTo(d: Desc, slots: seq<Slot>, i: nat): Bytes
    requires i <= |slots| == |d.fields|
  {
    if i == 0 then [] else WireUpTo(d, slots, i - 1) + WireField(d.fields[i - 1], slots[i - 1])
  }

  ghost predicate EncodableUpTo(d: Desc, slots: seq<Slot>, i: nat)
    requires i <= |slots| == |d.fields|
  {
    i == 0 || (EncodableUpTo(d, slots, i - 1) && SlotEncodable(d.fields[i - 1], slots[i - 1]))
  }

  lemma {:induction false} WireFromSplit(d: Desc, slots: seq<Slot>, i: nat)
    requires i <= |slots| == |d.fields|
    ensures WireFrom(d, slots, 0) == WireUpTo(d, slots, i) + WireFrom(d, slots, i)
  {
    if i > 0 {
      WireFromSplit(d, slots, i - 1);
      assert WireFrom(d, slots, i - 1) == WireField(d.fields[i - 1], slots[i - 1]) + WireFrom(d, slots, i);
    }
  }

  lemma {:induction false} EncodableAll(d: Desc, slots: seq<Slot>, i: nat)
    requires i <= |slots| == |d.fields|
    ensures MessageEncodable(d, slots) ==> EncodableUpTo(d, slots, i)
    ensures EncodableUpTo(d, slots, i) ==> forall j :: 0 <= j < i ==> SlotEncodable(d.fields[j], slots[j])
  {
    if i > 0 {
      EncodableAll(d, slots, i - 1);
    }
  }
}
