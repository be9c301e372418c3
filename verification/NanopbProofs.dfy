/** Decoding undoes encoding, for every well-formed descriptor and every message that fits it. */
module NanopbProofs {
  import opened Keys
  import opened Coding
  import opened Nanopb

  // Well-formed descriptors

  predicate KindOk(k: Kind)
    decreases k
  {
    match k
    case SignedVarint(size) => size in {1, 2, 4, 8}
    case UnsignedVarint(size) => size in {1, 2, 4, 8}
    case ZigZagVarint(size) => size in {1, 2, 4, 8}
    case Fixed4 => true
    case Fixed8 => true
    case ByteArray(cap) => cap <= PB_SIZE_MAX
    case Text(cap) => cap <= PB_SIZE_MAX
    case FixedBytes(len) => len <= PB_SIZE_MAX
    case Sub(d) => DescOk(d)
  }

  predicate FieldOk(f: Field)
    decreases f
  {
    && 1 <= f.tag && 8 * f.tag + 7 < TWO32
    && KindOk(f.kind)
    && ((f.rule.Required? || f.rule.Implicit?) && !f.kind.Sub? ==> ValueIn(f.kind, f.default, false))
    && (f.rule.Implicit? ==> ValueIn(f.kind, DefaultValue(f.kind, f.default), true) && IsZero(f.kind, DefaultValue(f.kind, f.default)))
    && (f.rule.Repeated? ==> f.rule.max <= PB_SIZE_MAX)
  }

  predicate DescOk(d: Desc)
    decreases d
  {
    && (forall i :: 0 <= i < |d.fields| ==> FieldOk(d.fields[i]))
    && DistinctTags(d.fields)
    && var required := RequiredBefore(d.fields, |d.fields|);
       required == 0 || (required < MAX_REQUIRED_FIELDS && required % 32 != 0)
  }

  predicate DistinctTags(fields: seq<Field>) {
    forall i, j :: 0 <= i < j < |fields| ==> fields[i].tag != fields[j].tag
  }

  // Messages

  /** A value its storage can hold; when `exact`, one that its encoding also identifies: no NUL
      inside a string, no submessage of 4 GiB, and of the values of an implicit field that are taken
      for zero only the default. */
  predicate ValueIn(k: Kind, v: Value, exact: bool)
    decreases k
  {
    match k
    case SignedVarint(size) => v.Num? && -(Modulus(size) / 2) <= v.n < Modulus(size) / 2
    case UnsignedVarint(size) => v.Num? && 0 <= v.n < Modulus(size)
    case ZigZagVarint(size) => v.Num? && -(Modulus(size) / 2) <= v.n < Modulus(size) / 2
    case Fixed4 => v.Num? && 0 <= v.n < TWO32
    case Fixed8 => v.Num? && 0 <= v.n < TWO64
    case ByteArray(cap) => v.Blob? && |v.bytes| <= cap
    case Text(cap) => v.Blob? && |v.bytes| <= cap && (exact ==> 0 !in v.bytes)
    case FixedBytes(len) => v.Blob? && |v.bytes| == len
    case Sub(d) => v.Msg? && MessageIn(d, v.slots, exact) && (exact ==> |WireFrom(d, v.slots, 0)| < TWO32)
  }

  predicate SlotIn(f: Field, s: Slot, exact: bool)
    decreases f
  {
    match f.rule
    case Required => s.One? && ValueIn(f.kind, s.value, exact)
    case Implicit =>
      && s.One? && ValueIn(f.kind, s.value, exact)
      && (exact && IsZero(f.kind, s.value) ==> s.value == DefaultValue(f.kind, f.default))
    case Optional => s.Maybe? && (s.opt.Some? ==> ValueIn(f.kind, s.opt.value, exact))
    case Oneof(_) => s.Maybe? && (s.opt.Some? ==> ValueIn(f.kind, s.opt.value, exact))
    case Repeated(max) => s.Many? && |s.items| <= max && forall j :: 0 <= j < |s.items| ==> ValueIn(f.kind, s.items[j], exact)
  }

  predicate MessageIn(d: Desc, slots: seq<Slot>, exact: bool)
    decreases d
  {
    && |slots| == |d.fields|
    && (forall i :: 0 <= i < |d.fields| ==> SlotIn(d.fields[i], slots[i], exact))
    && OneChosen(d.fields, slots)
  }

  /** At most one member of a oneof is chosen. */
  predicate OneChosen(fields: seq<Field>, slots: seq<Slot>)
    requires |fields| == |slots|
  {
    forall i, j ::
      0 <= i < |slots| && 0 <= j < |slots| && i != j && fields[i].rule.Oneof? && fields[i].rule == fields[j].rule ==>
      slots[i] == Maybe(None) || slots[j] == Maybe(None)
  }

  // Numbers and strings

  lemma ReadBack32(v: nat, tail: Bytes)
    requires v < TWO32
    ensures ReadVarint32(Varint(v) + tail) == Some(Read(v, tail))
  {
    var b, n := Varint(v) + tail, |Varint(v)|;
    VarintLengths(v);
    VarintRoundTrip(v, tail, 5);
    SmallMod(v, TWO32);
    assert b[n..] == tail;
  }

  lemma ReadBack64(v: nat, tail: Bytes)
    requires v < TWO64
    ensures ReadVarint64(Varint(v) + tail) == Some(Read(v, tail))
  {
    var b, n := Varint(v) + tail, |Varint(v)|;
    VarintLengths(v);
    VarintRoundTrip(v, tail, 10);
    SmallMod(v, TWO64);
    assert b[n..] == tail;
  }

  lemma SignedReadBack(n: int, size: nat)
    requires size in {1, 2, 4, 8} && -(Modulus(size) / 2) <= n < Modulus(size) / 2
    ensures Signed(ToUnsigned(n), if size == 8 then TWO64 else TWO32) == n
    ensures Signed(n, Modulus(size)) == n
  {
    assert n >= 0 ==> n % TWO64 == n;
    assert n < 0 ==> n % TWO64 == n + TWO64;
  }

  lemma SignedVarintReadBack(size: nat, v: Value, tail: Bytes)
    requires size in {1, 2, 4, 8} && ValueIn(SignedVarint(size), v, true)
    ensures DecodeNumber(SignedVarint(size), Varint(ToUnsigned(v.n)) + tail) == Some(Read(v, tail))
  {
    SignedReadBack(v.n, size);
    ReadBack64(ToUnsigned(v.n), tail);
  }

  lemma UnsignedVarintReadBack(size: nat, v: Value, tail: Bytes)
    requires size in {1, 2, 4, 8} && ValueIn(UnsignedVarint(size), v, true)
    ensures DecodeNumber(UnsignedVarint(size), Varint(ToUnsigned(v.n)) + tail) == Some(Read(v, tail))
  {
    SmallMod(v.n, Modulus(size));
    SmallMod(v.n, TWO64);
    ReadBack64(v.n, tail);
  }

  lemma ZigZagReadBack(size: nat, v: Value, tail: Bytes)
    requires size in {1, 2, 4, 8} && ValueIn(ZigZagVarint(size), v, true)
    ensures ZigZag(v.n) < TWO64 && DecodeNumber(ZigZagVarint(size), Varint(ZigZag(v.n)) + tail) == Some(Read(v, tail))
  {
    SignedReadBack(v.n, size);
    ReadBack64(ZigZag(v.n), tail);
    assert UnZigZag(ZigZag(v.n)) == v.n;
  }

  lemma NumberReadBack(k: Kind, v: Value, tail: Bytes)
    requires k.SignedVarint? || k.UnsignedVarint? || k.ZigZagVarint?
    requires KindOk(k) && ValueIn(k, v, true)
    ensures DecodeNumber(k, Wire(k, v) + tail) == Some(Read(v, tail))
    ensures |Wire(k, v)| <= 10
  {
    match k {
      case SignedVarint(size) =>
        SignedVarintReadBack(size, v, tail);
        VarintLengths(ToUnsigned(v.n));
      case UnsignedVarint(size) =>
        UnsignedVarintReadBack(size, v, tail);
        VarintLengths(ToUnsigned(v.n));
      case ZigZagVarint(size) =>
        ZigZagReadBack(size, v, tail);
        VarintLengths(ZigZag(v.n));
    }
  }

  lemma BlobReadBack(k: Kind, v: Value, tail: Bytes)
    requires k.ByteArray? || k.Text? || k.FixedBytes?
    requires KindOk(k) && ValueIn(k, v, true)
    ensures DecodeBlob(k, Wire(k, v) + tail) == Some(Read(v, tail))
  {
    var b := v.bytes;
    assert Wire(k, v) == LengthPrefixed(b);
    PrefixReadBack(b, tail);
  }

  lemma PrefixReadBack(b: Bytes, tail: Bytes)
    requires |b| < TWO32
    ensures ReadVarint32(LengthPrefixed(b) + tail) == Some(Read(|b|, b + tail))
    ensures (b + tail)[..|b|] == b && (b + tail)[|b|..] == tail
  {
    assert LengthPrefixed(b) + tail == Varint(|b|) + (b + tail);
    ReadBack32(|b|, b + tail);
  }

  /** A string comes back up to its first NUL: unchanged if and only if it has none. */
  lemma TextReadBack(cap: nat, b: Bytes, prior: Value)
    requires |b| <= cap <= PB_SIZE_MAX
    ensures Decode(Text(cap), Wire(Text(cap), Blob(b)), prior) == Some(Read(Blob(CString(b)), []))
    ensures CString(b) == b <==> 0 !in b
  {
    var c := CString(b);
    BlobReadBack(Text(cap), Blob(c), []);
    assert Wire(Text(cap), Blob(b)) + [] == LengthPrefixed(c);
  }

  // Values

  lemma FixedReadBack(k: Kind, v: Value, tail: Bytes, prior: Value)
    requires (k.Fixed4? || k.Fixed8?) && ValueIn(k, v, true)
    ensures Decode(k, Wire(k, v) + tail, prior) == Some(Read(v, tail))
  {
    if k.Fixed4? {
      SmallMod(v.n, TWO32);
      Fixed32RoundTrip(v.n, tail);
      assert (Fixed32(v.n) + tail)[4..] == tail;
    } else {
      SmallMod(v.n, TWO64);
      Fixed64RoundTrip(v.n, tail);
      assert (Fixed64(v.n) + tail)[8..] == tail;
    }
  }

  lemma SubReadBack(d: Desc, slots: seq<Slot>, tail: Bytes)
    requires |WireFrom(d, slots, 0)| < TWO32
    requires DecodeMessage(d, WireFrom(d, slots, 0), Defaults(d)) == Some(slots)
    ensures Decode(Sub(d), Wire(Sub(d), Msg(slots)) + tail, Msg(Defaults(d))) == Some(Read(Msg(slots), tail))
  {
    var body := WireFrom(d, slots, 0);
    assert Wire(Sub(d), Msg(slots)) == LengthPrefixed(body);
    PrefixReadBack(body, tail);
  }

  lemma {:induction false} ValueReadBack(k: Kind, v: Value, tail: Bytes, prior: Value)
    requires KindOk(k) && ValueIn(k, v, true)
    requires k.Sub? ==> prior == Msg(Defaults(k.desc))
    ensures Decode(k, Wire(k, v) + tail, prior) == Some(Read(v, tail))
    decreases k, 0
  {
    if k.Fixed4? || k.Fixed8? {
      FixedReadBack(k, v, tail, prior);
    } else if k.Sub? {
      MessageRoundTrip(k.desc, v.slots);
      SubReadBack(k.desc, v.slots, tail);
    } else if k.ByteArray? || k.Text? || k.FixedBytes? {
      BlobReadBack(k, v, tail);
    } else {
      NumberReadBack(k, v, tail);
    }
  }

  lemma {:induction false} PackedLength(k: Kind, items: seq<Value>)
    requires KindOk(k) && Packable(k) && forall j :: 0 <= j < |items| ==> ValueIn(k, items[j], true)
    ensures |WireItems(k, items)| <= 10 * |items|
  {
    if items != [] {
      if !k.Fixed4? && !k.Fixed8? {
        NumberReadBack(k, items[0], []);
      }
      PackedLength(k, items[1..]);
    }
  }

  lemma MoveOne(done: seq<Value>, items: seq<Value>)
    requires items != []
    ensures done + [items[0]] + items[1..] == done + items
  {
  }

  lemma {:induction false} PackedReadBack(k: Kind, done: seq<Value>, items: seq<Value>, max: nat)
    requires KindOk(k) && Packable(k) && forall j :: 0 <= j < |items| ==> ValueIn(k, items[j], true)
    requires |done| + |items| <= max
    ensures DecodePacked(k, WireItems(k, items), done, max) == Some(done + items)
    decreases k, 1, |items|
  {
    if items == [] {
      assert done + items == done;
    } else {
      ValueReadBack(k, items[0], WireItems(k, items[1..]), Num(0));
      PackedReadBack(k, done + [items[0]], items[1..], max);
      MoveOne(done, items);
    }
  }

  // Messages

  /** The fields before index `i` decoded, the others at their defaults. */
  function Partly(d: Desc, slots: seq<Slot>, i: nat): (r: seq<Slot>)
    requires i <= |slots| == |d.fields|
    ensures |r| == |d.fields|
  {
    slots[..i] + Defaults(d)[i..]
  }

  function SeenBefore(d: Desc, i: nat): set<nat>
    requires i <= |d.fields|
  {
    Below(RequiredBefore(d.fields, i))
  }

  function Below(n: nat): (r: set<nat>)
    ensures forall x: nat :: x in r <==> x < n
  {
    if n == 0 then {} else Below(n - 1) + {n - 1}
  }

  function Mark(d: Desc, i: nat, seen: set<nat>): set<nat>
    requires i < |d.fields|
  {
    var index := RequiredBefore(d.fields, i);
    if d.fields[i].rule.Required? && index < MAX_REQUIRED_FIELDS then seen + {index} else seen
  }

  lemma {:induction false} RequiredGrows(fields: seq<Field>, i: nat, j: nat)
    requires i <= j <= |fields|
    ensures RequiredBefore(fields, i) <= RequiredBefore(fields, j)
    decreases j
  {
    if i < j {
      RequiredGrows(fields, i, j - 1);
    }
  }

  /** One occurrence of field `i` on the wire is one turn of the loop. */
  lemma Occurrence(d: Desc, i: nat, wireType: nat, payload: Bytes, tail: Bytes, cur: seq<Slot>, seen: set<nat>, s: Slot)
    requires i < |d.fields| == |cur| && DistinctTags(d.fields) && FieldOk(d.fields[i]) && wireType < 8
    requires DecodeSlot(d.fields[i], wireType, payload + tail, cur[i]) == Some(Read(s, tail))
    ensures DecodeLoop(d, TagBytes(d.fields[i].tag, wireType) + payload + tail, cur, seen)
         == DecodeLoop(d, tail, Store(d, cur, i, s), Mark(d, i, seen))
  {
    TagReadBack(d.fields[i], wireType, payload + tail);
    assert TagBytes(d.fields[i].tag, wireType) + payload + tail == TagBytes(d.fields[i].tag, wireType) + (payload + tail);
    FieldFound(d.fields, i);
  }

  lemma TagReadBack(f: Field, wireType: nat, rest: Bytes)
    requires FieldOk(f) && wireType < 8
    ensures DecodeTag(TagBytes(f.tag, wireType) + rest) == Tag(f.tag, wireType, rest)
  {
    var b := TagBytes(f.tag, wireType) + rest;
    ReadBack32(8 * f.tag + wireType, rest);
    assert (8 * f.tag + wireType) / 8 == f.tag && (8 * f.tag + wireType) % 8 == wireType;
  }

  lemma FieldFound(fields: seq<Field>, i: nat)
    requires i < |fields| && DistinctTags(fields)
    ensures Find(fields, fields[i].tag) == Some(i)
  {
    var k := Find(fields, fields[i].tag);
  }

  /** Storing into a field other than a oneof's, or into the only chosen member of one. */
  lemma StoreOne(d: Desc, cur: seq<Slot>, i: nat, s: Slot)
    requires i < |d.fields| == |cur|
    requires forall j :: 0 <= j < |cur| && j != i && d.fields[i].rule.Oneof? && d.fields[j].rule == d.fields[i].rule ==> cur[j] == Maybe(None)
    ensures Store(d, cur, i, s) == cur[i := s]
  {
  }

  lemma TaggedItemsFirst(tag: nat, k: Kind, items: seq<Value>, tail: Bytes)
    requires items != []
    ensures TaggedItems(tag, k, items) + tail
         == TagBytes(tag, WireType(k)) + Wire(k, items[0]) + (TaggedItems(tag, k, items[1..]) + tail)
  {
  }

  /** One of them. */
  lemma {:induction false} ItemStep(d: Desc, i: nat, items: seq<Value>, done: seq<Value>, tail: Bytes, cur: seq<Slot>, seen: set<nat>)
    requires i < |d.fields| == |cur| && DistinctTags(d.fields) && FieldOk(d.fields[i])
    requires d.fields[i].rule.Repeated? && |done| + |items| <= d.fields[i].rule.max
    requires items != [] && ValueIn(d.fields[i].kind, items[0], true)
    requires cur[i] == Many(done)
    ensures DecodeLoop(d, TaggedItems(d.fields[i].tag, d.fields[i].kind, items) + tail, cur, seen)
         == DecodeLoop(d, TaggedItems(d.fields[i].tag, d.fields[i].kind, items[1..]) + tail, cur[i := Many(done + [items[0]])], seen)
    decreases d.fields[i].kind, 1, 0
  {
    var f := d.fields[i];
    var more := TaggedItems(f.tag, f.kind, items[1..]) + tail;
    ValueReadBack(f.kind, items[0], more, DefaultValue(f.kind, f.default));
    Occurrence(d, i, WireType(f.kind), Wire(f.kind, items[0]), more, cur, seen, Many(done + [items[0]]));
    StoreOne(d, cur, i, Many(done + [items[0]]));
    TaggedItemsFirst(f.tag, f.kind, items, tail);
  }

  /** An array of values that are not packed, though they might have been; it goes on behind what is
      there. */
  lemma {:induction false} ItemsStep(d: Desc, i: nat, items: seq<Value>, done: seq<Value>, tail: Bytes, cur: seq<Slot>, seen: set<nat>)
    requires i < |d.fields| == |cur| && DistinctTags(d.fields) && FieldOk(d.fields[i])
    requires d.fields[i].rule.Repeated? && |done| + |items| <= d.fields[i].rule.max
    requires forall j :: 0 <= j < |items| ==> ValueIn(d.fields[i].kind, items[j], true)
    requires cur[i] == Many(done)
    ensures DecodeLoop(d, TaggedItems(d.fields[i].tag, d.fields[i].kind, items) + tail, cur, seen)
         == DecodeLoop(d, tail, cur[i := Many(done + items)], seen)
    decreases d.fields[i].kind, 1, |items|
  {
    var f := d.fields[i];
    if items == [] {
      assert [] + tail == tail && done + items == done && cur[i := cur[i]] == cur;
    } else {
      ItemStep(d, i, items, done, tail, cur, seen);
      var next := cur[i := Many(done + [items[0]])];
      ItemsStep(d, i, items[1..], done + [items[0]], tail, next, seen);
      MoveOne(done, items);
      assert next[i := Many(done + items)] == cur[i := Many(done + items)];
    }
  }

  /** A packed array, which goes on there too. */
  lemma {:induction false} PackedStep(d: Desc, i: nat, items: seq<Value>, done: seq<Value>, tail: Bytes, cur: seq<Slot>, seen: set<nat>)
    requires i < |d.fields| == |cur| && DistinctTags(d.fields) && FieldOk(d.fields[i])
    requires d.fields[i].rule.Repeated? && Packable(d.fields[i].kind) && items != [] && |done| + |items| <= d.fields[i].rule.max
    requires forall j :: 0 <= j < |items| ==> ValueIn(d.fields[i].kind, items[j], true)
    requires cur[i] == Many(done)
    ensures DecodeLoop(d, WireField(d.fields[i], Many(items)) + tail, cur, seen) == DecodeLoop(d, tail, cur[i := Many(done + items)], seen)
    decreases d.fields[i].kind, 2
  {
    var f := d.fields[i];
    var body := WireItems(f.kind, items);
    PackedLength(f.kind, items);
    PackedReadBack(f.kind, done, items, f.rule.max);
    var payload := LengthPrefixed(body);
    assert payload + tail == Varint(|body|) + (body + tail);
    ReadBack32(|body|, body + tail);
    assert (body + tail)[..|body|] == body && (body + tail)[|body|..] == tail;
    Occurrence(d, i, WT_STRING, payload, tail, cur, seen, Many(done + items));
    StoreOne(d, cur, i, Many(done + items));
    assert WireField(f, Many(items)) + tail == TagBytes(f.tag, WT_STRING) + payload + tail;
  }

  /** A single value. */
  lemma {:induction false} SingleStep(d: Desc, i: nat, v: Value, s: Slot, tail: Bytes, cur: seq<Slot>, seen: set<nat>)
    requires i < |d.fields| == |cur| && DistinctTags(d.fields) && FieldOk(d.fields[i]) && !d.fields[i].rule.Repeated?
    requires ValueIn(d.fields[i].kind, v, true) && cur[i] == DefaultSlot(d.fields[i])
    requires s == if d.fields[i].rule.Required? || d.fields[i].rule.Implicit? then One(v) else Maybe(Some(v))
    requires forall j :: 0 <= j < |cur| && j != i && d.fields[i].rule.Oneof? && d.fields[j].rule == d.fields[i].rule ==> cur[j] == Maybe(None)
    ensures DecodeLoop(d, Tagged(d.fields[i], v) + tail, cur, seen) == DecodeLoop(d, tail, cur[i := s], Mark(d, i, seen))
    decreases d.fields[i].kind, 1
  {
    var f := d.fields[i];
    ValueReadBack(f.kind, v, tail, DefaultValue(f.kind, f.default));
    Occurrence(d, i, WireType(f.kind), Wire(f.kind, v), tail, cur, seen, s);
    StoreOne(d, cur, i, s);
  }

  /** What is written for a field is stored in it, when it is at its default and, for a member of a
      oneof, no other member is chosen. */
  lemma {:induction false} FieldOnto(d: Desc, i: nat, s: Slot, tail: Bytes, cur: seq<Slot>, seen: set<nat>)
    requires DescOk(d) && i < |d.fields| == |cur| && SlotIn(d.fields[i], s, true) && cur[i] == DefaultSlot(d.fields[i])
    requires s != Maybe(None) && d.fields[i].rule.Oneof? ==> OthersUnset(d, cur, i)
    ensures DecodeLoop(d, WireField(d.fields[i], s) + tail, cur, seen) == DecodeLoop(d, tail, cur[i := s], Mark(d, i, seen))
    decreases d, 0
  {
    var f := d.fields[i];
    assert FieldOk(f);
    if s.Many? {
      if s.items == [] {
        NothingWritten(f, s, cur, i, tail);
      } else if Packable(f.kind) {
        PackedStep(d, i, s.items, [], tail, cur, seen);
        assert [] + s.items == s.items;
      } else {
        ItemsStep(d, i, s.items, [], tail, cur, seen);
        assert [] + s.items == s.items;
      }
    } else if s == Maybe(None) || (f.rule.Implicit? && IsZero(f.kind, s.value)) {
      NothingWritten(f, s, cur, i, tail);
    } else {
      SingleStep(d, i, if s.One? then s.value else s.opt.value, s, tail, cur, seen);
    }
  }

  ghost predicate OthersUnset(d: Desc, cur: seq<Slot>, i: nat)
    requires i < |d.fields| == |cur|
  {
    forall j :: 0 <= j < |cur| && j != i && d.fields[j].rule == d.fields[i].rule ==> cur[j] == Maybe(None)
  }

  /** What is written for field `i` takes the decoder from field `i` to field `i + 1`. */
  lemma {:induction false} FieldStep(d: Desc, slots: seq<Slot>, i: nat, tail: Bytes, seen: set<nat>)
    requires DescOk(d) && i < |slots| == |d.fields| && SlotIn(d.fields[i], slots[i], true) && OneChosen(d.fields, slots)
    ensures DecodeLoop(d, WireField(d.fields[i], slots[i]) + tail, Partly(d, slots, i), seen)
         == DecodeLoop(d, tail, Partly(d, slots, i + 1), Mark(d, i, seen))
    decreases d, 1
  {
    var f, s, cur := d.fields[i], slots[i], Partly(d, slots, i);
    assert cur[i] == DefaultSlot(f);
    assert Partly(d, slots, i + 1) == cur[i := s];
    if s != Maybe(None) && f.rule.Oneof? {
      forall j | 0 <= j < |cur| && j != i && d.fields[j].rule == f.rule ensures cur[j] == Maybe(None) {
        assert j < i ==> cur[j] == slots[j];
        assert j > i ==> cur[j] == DefaultSlot(d.fields[j]);
      }
    }
    FieldOnto(d, i, s, tail, cur, seen);
  }

  /** What writes nothing is what the decoder starts from. */
  lemma NothingWritten(f: Field, s: Slot, cur: seq<Slot>, i: nat, tail: Bytes)
    requires FieldOk(f) && SlotIn(f, s, true) && i < |cur| && cur[i] == DefaultSlot(f)
    requires s == Many([]) || s == Maybe(None) || (s.One? && f.rule.Implicit? && IsZero(f.kind, s.value))
    ensures cur[i := s] == cur && WireField(f, s) + tail == tail
  {
    assert s == cur[i];
    assert [] + tail == tail;
  }

  /** Apart from submessages, only one value is taken for zero. */
  lemma OneZero(k: Kind, v: Value, w: Value)
    requires !k.Sub? && ValueIn(k, v, true) && ValueIn(k, w, true) && IsZero(k, v) && IsZero(k, w)
    ensures v == w
  {
  }

  lemma NothingLeft(d: Desc, slots: seq<Slot>)
    requires |slots| == |d.fields|
    ensures DecodeLoop(d, WireFrom(d, slots, |slots|), Partly(d, slots, |slots|), SeenBefore(d, |slots|))
         == Some((slots, SeenBefore(d, |slots|)))
  {
    assert Partly(d, slots, |slots|) == slots;
  }

  lemma FirstField(d: Desc, slots: seq<Slot>, i: nat)
    requires i < |slots| == |d.fields|
    ensures WireFrom(d, slots, i) == WireField(d.fields[i], slots[i]) + WireFrom(d, slots, i + 1)
  {
  }

  /** Decoding from field `i` on. */
  ghost function DecodeFrom(d: Desc, slots: seq<Slot>, i: nat): Option<(seq<Slot>, set<nat>)>
    requires i <= |slots| == |d.fields|
  {
    DecodeLoop(d, WireFrom(d, slots, i), Partly(d, slots, i), SeenBefore(d, i))
  }

  lemma SeenStep(d: Desc, i: nat)
    requires DescOk(d) && i < |d.fields|
    ensures SeenBefore(d, i + 1) == Mark(d, i, SeenBefore(d, i))
  {
    RequiredGrows(d.fields, i + 1, |d.fields|);
  }

  lemma {:induction false} OneFieldStep(d: Desc, slots: seq<Slot>, i: nat)
    requires DescOk(d) && MessageIn(d, slots, true) && i < |slots|
    ensures DecodeFrom(d, slots, i) == DecodeFrom(d, slots, i + 1)
    decreases d, 2
  {
    FirstField(d, slots, i);
    FieldStep(d, slots, i, WireFrom(d, slots, i + 1), SeenBefore(d, i));
    SeenStep(d, i);
  }

  lemma {:induction false} FieldsChain(d: Desc, slots: seq<Slot>, i: nat)
    requires i <= |slots| == |d.fields|
    requires forall j :: i <= j < |slots| ==> DecodeFrom(d, slots, j) == DecodeFrom(d, slots, j + 1)
    ensures DecodeFrom(d, slots, i) == DecodeFrom(d, slots, |slots|)
    decreases |slots| - i
  {
    if i < |slots| {
      FieldsChain(d, slots, i + 1);
    }
  }

  /** pb_decode undoes pb_encode: it succeeds, uses every byte, and returns the same message. */
  lemma {:induction false} MessageRoundTrip(d: Desc, slots: seq<Slot>)
    requires DescOk(d) && MessageIn(d, slots, true)
    ensures DecodeLoop(d, WireFrom(d, slots, 0), Defaults(d), {}) == Some((slots, SeenBefore(d, |slots|)))
    ensures DecodeMessage(d, WireFrom(d, slots, 0), Defaults(d)) == Some(slots)
    decreases d, 3
  {
    forall i | 0 <= i < |slots| ensures DecodeFrom(d, slots, i) == DecodeFrom(d, slots, i + 1) {
      OneFieldStep(d, slots, i);
    }
    FieldsChain(d, slots, 0);
    NothingLeft(d, slots);
    assert Partly(d, slots, 0) == Defaults(d);
    assert SeenBefore(d, 0) == {};
  }

  // What arrives of any message

  predicate SizeOk(k: Kind, v: Value)
    decreases k
  {
    k.Sub? && v.Msg? ==> |WireFrom(k.desc, v.slots, 0)| < TWO32 && SizesOk(k.desc, v.slots)
  }

  predicate SlotSizeOk(f: Field, s: Slot)
    decreases f
  {
    match s
    case One(v) => SizeOk(f.kind, v)
    case Maybe(o) => o.Some? ==> SizeOk(f.kind, o.value)
    case Many(items) => forall j :: 0 <= j < |items| ==> SizeOk(f.kind, items[j])
  }

  /** No submessage, at any depth, is of 4 GiB. */
  predicate SizesOk(d: Desc, slots: seq<Slot>)
    decreases d
  {
    forall i :: 0 <= i < |d.fields| && i < |slots| ==> SlotSizeOk(d.fields[i], slots[i])
  }

  /** What a receiver makes of a value: a string ends at its first NUL, and an implicit field taken
      for zero comes back as its default. */
  function Sent(k: Kind, v: Value): Value
    decreases k
  {
    match k
    case Text(_) => if v.Blob? then Blob(CString(v.bytes)) else v
    case Sub(d) => if v.Msg? then Msg(SentMessage(d, v.slots)) else v
    case _ => v
  }

  function SentSlot(f: Field, s: Slot): Slot
    decreases f
  {
    match s
    case One(v) => One(if f.rule.Implicit? && IsZero(f.kind, v) then DefaultValue(f.kind, f.default) else Sent(f.kind, v))
    case Maybe(o) => if o.None? then s else Maybe(Some(Sent(f.kind, o.value)))
    case Many(items) => Many(seq(|items|, j requires 0 <= j < |items| => Sent(f.kind, items[j])))
  }

  function SentMessage(d: Desc, slots: seq<Slot>): seq<Slot>
    decreases d
  {
    seq(|slots|, i requires 0 <= i < |slots| => if i < |d.fields| then SentSlot(d.fields[i], slots[i]) else slots[i])
  }

  /** Only of implicit submessages does the sender drop anything that is not zero: an implicit number,
      string or bytes arrive. */
  lemma ScalarArrives(f: Field, v: Value)
    requires FieldOk(f) && f.rule.Implicit? && !f.kind.Sub? && ValueIn(f.kind, v, false)
    ensures SentSlot(f, One(v)) == One(if f.kind.Text? then Blob(CString(v.bytes)) else v)
  {
  }

  /** The encoder does not tell a value from what a receiver makes of it. */
  lemma {:induction false} SentValue(k: Kind, v: Value)
    requires KindOk(k) && ValueIn(k, v, false) && SizeOk(k, v)
    ensures ValueIn(k, Sent(k, v), true) && Wire(k, Sent(k, v)) == Wire(k, v)
    ensures IsZero(k, Sent(k, v)) <==> IsZero(k, v)
    decreases k, 0
  {
    if k.Sub? {
      SentFits(k.desc, v.slots);
      SentWire(k.desc, v.slots, 0);
    }
  }

  lemma {:induction false} SentItems(f: Field, items: seq<Value>, sent: seq<Value>)
    requires |sent| == |items| && forall j :: 0 <= j < |items| ==> Wire(f.kind, sent[j]) == Wire(f.kind, items[j])
    ensures WireItems(f.kind, sent) == WireItems(f.kind, items)
    ensures TaggedItems(f.tag, f.kind, sent) == TaggedItems(f.tag, f.kind, items)
    decreases |items|
  {
    if items != [] {
      assert sent[0] == sent[0] && forall j :: 0 <= j < |items| - 1 ==> sent[1..][j] == sent[j + 1] && items[1..][j] == items[j + 1];
      SentItems(f, items[1..], sent[1..]);
    }
  }

  lemma {:induction false} SentField(f: Field, s: Slot)
    requires FieldOk(f) && SlotIn(f, s, false) && SlotSizeOk(f, s)
    ensures SlotIn(f, SentSlot(f, s), true) && WireField(f, SentSlot(f, s)) == WireField(f, s)
    ensures SlotIsZero(f, SentSlot(f, s)) <==> SlotIsZero(f, s)
    decreases f, 0
  {
    match s {
      case One(v) => SentValue(f.kind, v);
      case Maybe(o) => if o.Some? { SentValue(f.kind, o.value); }
      case Many(items) =>
        forall j | 0 <= j < |items|
          ensures ValueIn(f.kind, Sent(f.kind, items[j]), true) && Wire(f.kind, Sent(f.kind, items[j])) == Wire(f.kind, items[j])
          ensures IsZero(f.kind, Sent(f.kind, items[j])) <==> IsZero(f.kind, items[j])
        {
          SentValue(f.kind, items[j]);
        }
        SentItems(f, items, SentSlot(f, s).items);
    }
  }

  lemma {:induction false} SentFits(d: Desc, slots: seq<Slot>)
    requires DescOk(d) && MessageIn(d, slots, false) && SizesOk(d, slots)
    ensures MessageIn(d, SentMessage(d, slots), true)
    ensures forall i :: 0 <= i < |slots| ==>
              && WireField(d.fields[i], SentMessage(d, slots)[i]) == WireField(d.fields[i], slots[i])
              && (SlotIsZero(d.fields[i], SentMessage(d, slots)[i]) <==> SlotIsZero(d.fields[i], slots[i]))
    decreases d, 1
  {
    forall i | 0 <= i < |slots|
      ensures SlotIn(d.fields[i], SentMessage(d, slots)[i], true)
      ensures WireField(d.fields[i], SentMessage(d, slots)[i]) == WireField(d.fields[i], slots[i])
      ensures SlotIsZero(d.fields[i], SentMessage(d, slots)[i]) <==> SlotIsZero(d.fields[i], slots[i])
    {
      SentField(d.fields[i], slots[i]);
    }
  }

  lemma {:induction false} SentWire(d: Desc, slots: seq<Slot>, i: nat)
    requires i <= |slots| == |d.fields|
    requires forall j :: 0 <= j < |slots| ==> WireField(d.fields[j], SentMessage(d, slots)[j]) == WireField(d.fields[j], slots[j])
    ensures WireFrom(d, SentMessage(d, slots), i) == WireFrom(d, slots, i)
    decreases d, 0, |slots| - i
  {
    if i < |slots| {
      SentWire(d, slots, i + 1);
      FirstField(d, slots, i);
      FirstField(d, SentMessage(d, slots), i);
    }
  }

  /** For any message that fits its descriptor: pb_decode of pb_encode's output succeeds and gives
      what `SentMessage` says, which is the message exactly when it is `exact`. */
  lemma AnyMessageArrives(d: Desc, slots: seq<Slot>)
    requires DescOk(d) && MessageIn(d, slots, false) && SizesOk(d, slots)
    ensures DecodeMessage(d, WireFrom(d, slots, 0), Defaults(d)) == Some(SentMessage(d, slots))
    ensures SentMessage(d, slots) == slots <==> MessageIn(d, slots, true)
  {
    SentFits(d, slots);
    SentWire(d, slots, 0);
    MessageRoundTrip(d, SentMessage(d, slots));
    if MessageIn(d, slots, true) {
      MessageRoundTrip(d, slots);
    }
  }

  /** An implicit submessage is taken for zero when its array begins with a zero, and is lost. */
  lemma ArrayIsLost()
    ensures var (d, slots) := (Outer(), [One(Msg([Many([Num(0), Num(5)])]))]);
            && DescOk(d) && MessageIn(d, slots, false) && SizesOk(d, slots)
            && WireFrom(d, slots, 0) == [] && SentMessage(d, slots) == [One(Msg([Many([])]))]
  {
    var d, slots := Outer(), [One(Msg([Many([Num(0), Num(5)])]))];
    InnerArray();
    assert SentMessage(d, slots)[0] == SentSlot(d.fields[0], slots[0]) == One(Msg(Defaults(Inner())));
    assert WireFrom(d, slots, 1) == [];
  }

  function Inner(): Desc { Desc([Field(1, Repeated(4), UnsignedVarint(4), Num(0))]) }
  function Outer(): Desc { Desc([Field(1, Implicit, Sub(Inner()), Num(0))]) }

  lemma InnerArray()
    ensures DescOk(Inner()) && Defaults(Inner()) == [Many([])] && IsZero(Sub(Inner()), Msg([Many([])]))
    ensures IsZero(Sub(Inner()), Msg([Many([Num(0), Num(5)])])) && MessageIn(Inner(), [Many([Num(0), Num(5)])], false)
    ensures |WireFrom(Inner(), [Many([Num(0), Num(5)])], 0)| < TWO32 && |WireFrom(Inner(), [Many([])], 0)| == 0
  {
    var items := [Num(0), Num(5)];
    PackedLength(UnsignedVarint(4), items);
    VarintLengths(|WireItems(UnsignedVarint(4), items)|);
    VarintLengths(8 + WT_STRING);
    assert WireFrom(Inner(), [Many(items)], 1) == [] && WireFrom(Inner(), [Many([])], 1) == [];
  }

  // Whatever the bytes, what is decoded fits its storage

  lemma DecodedNumberStored(k: Kind, b: Bytes)
    requires (k.SignedVarint? || k.UnsignedVarint? || k.ZigZagVarint?) && KindOk(k)
    ensures match DecodeNumber(k, b) case None => true case Some(r) => ValueIn(k, r.value, false)
  {
    match k
    case SignedVarint(_) => SignedStored(k, b);
    case UnsignedVarint(_) =>
    case ZigZagVarint(_) => ZigZagStored(k, b);
  }

  lemma SignedStored(k: Kind, b: Bytes)
    requires k.SignedVarint? && KindOk(k)
    ensures match DecodeNumber(k, b) case None => true case Some(r) => ValueIn(k, r.value, false)
  {
  }

  lemma ZigZagStored(k: Kind, b: Bytes)
    requires k.ZigZagVarint? && KindOk(k)
    ensures match DecodeNumber(k, b) case None => true case Some(r) => ValueIn(k, r.value, false)
  {
  }

  lemma {:induction false} DecodedStored(k: Kind, b: Bytes, prior: Value)
    requires KindOk(k) && (k.Sub? ==> ValueIn(k, prior, false))
    ensures match Decode(k, b, prior) case None => true case Some(r) => ValueIn(k, r.value, false)
    decreases k, 0, 0
  {
    match k {
      case Fixed4 =>
      case Fixed8 =>
      case Sub(d) =>
        match ReadVarint32(b) {
          case None =>
          case Some(Read(n, rest)) => if n <= |rest| { DecodedMessageStored(d, rest[..n], prior.slots); }
        }
      case ByteArray(_) =>
      case Text(_) =>
      case FixedBytes(_) =>
      case _ => DecodedNumberStored(k, b);
    }
  }

  lemma {:induction false} DecodedPackedStored(k: Kind, b: Bytes, items: seq<Value>, max: nat)
    requires KindOk(k) && Packable(k) && |items| <= max && forall j :: 0 <= j < |items| ==> ValueIn(k, items[j], false)
    ensures match DecodePacked(k, b, items, max)
            case None => true
            case Some(r) => |r| <= max && forall j :: 0 <= j < |r| ==> ValueIn(k, r[j], false)
    decreases k, 1, |b|
  {
    if b != [] && |items| < max {
      DecodedStored(k, b, Num(0));
      match Decode(k, b, Num(0)) {
        case None =>
        case Some(Read(v, rest)) => DecodedPackedStored(k, rest, items + [v], max);
      }
    }
  }

  lemma {:induction false} DefaultStored(k: Kind, v: Value)
    requires KindOk(k) && (k.Sub? || ValueIn(k, v, false))
    ensures ValueIn(k, DefaultValue(k, v), false)
    decreases k, 0
  {
    if k.Sub? {
      DefaultsStored(k.desc);
    }
  }

  lemma {:induction false} DefaultsStored(d: Desc)
    requires DescOk(d)
    ensures MessageIn(d, Defaults(d), false)
    decreases d, 1
  {
    forall i | 0 <= i < |d.fields| ensures SlotIn(d.fields[i], Defaults(d)[i], false) {
      var f := d.fields[i];
      assert FieldOk(f) && Defaults(d)[i] == DefaultSlot(f);
      if f.rule.Required? || f.rule.Implicit? {
        DefaultStored(f.kind, f.default);
      }
    }
  }

  lemma {:induction false} DecodedSlotStored(f: Field, wireType: nat, b: Bytes, s: Slot)
    requires FieldOk(f) && SlotIn(f, s, false)
    ensures match DecodeSlot(f, wireType, b, s) case None => true case Some(r) => SlotIn(f, r.value, false)
    decreases f, 0, 0
  {
    var blank := DefaultValue(f.kind, f.default);
    if f.kind.Sub? {
      DefaultStored(f.kind, f.default);
    }
    match f.rule {
      case Required => DecodedStored(f.kind, b, s.value);
      case Implicit => DecodedStored(f.kind, b, s.value);
      case Optional => DecodedStored(f.kind, b, if s.opt.Some? then s.opt.value else blank);
      case Oneof(_) => DecodedStored(f.kind, b, blank);
      case Repeated(max) =>
        if wireType == WT_STRING && Packable(f.kind) {
          match ReadVarint32(b) {
            case None =>
            case Some(Read(n, rest)) => if n <= |rest| { DecodedPackedStored(f.kind, rest[..n], s.items, max); }
          }
        } else {
          DecodedStored(f.kind, b, blank);
        }
    }
  }

  lemma StoreStored(d: Desc, slots: seq<Slot>, i: nat, s: Slot)
    requires MessageIn(d, slots, false) && i < |slots| && SlotIn(d.fields[i], s, false)
    ensures MessageIn(d, Store(d, slots, i, s), false)
  {
  }

  lemma {:induction false} DecodedLoopStored(d: Desc, b: Bytes, slots: seq<Slot>, seen: set<nat>)
    requires DescOk(d) && MessageIn(d, slots, false)
    ensures match DecodeLoop(d, b, slots, seen) case None => true case Some(r) => MessageIn(d, r.0, false)
    decreases d, 0, |b|
  {
    if b != [] {
      match DecodeTag(b) {
        case EndOfMessage =>
        case BadTag =>
        case Tag(tag, wireType, rest) =>
          match Find(d.fields, tag) {
            case None =>
              if SkipField(wireType, rest).Some? {
                DecodedLoopStored(d, SkipField(wireType, rest).value, slots, seen);
              }
            case Some(i) =>
              assert FieldOk(d.fields[i]);
              DecodedSlotStored(d.fields[i], wireType, rest, slots[i]);
              match DecodeSlot(d.fields[i], wireType, rest, slots[i]) {
                case None =>
                case Some(Read(s, after)) =>
                  StoreStored(d, slots, i, s);
                  DecodedLoopStored(d, after, Store(d, slots, i, s), Mark(d, i, seen));
              }
          }
      }
    }
  }

  /** Whatever the bytes, a message that decodes has every number in its width, every string and
      array within its room, and at most one member of each oneof. */
  lemma {:induction false} DecodedMessageStored(d: Desc, b: Bytes, slots: seq<Slot>)
    requires DescOk(d) && MessageIn(d, slots, false)
    ensures match DecodeMessage(d, b, slots) case None => true case Some(m) => MessageIn(d, m, false)
    decreases d, 1, 0
  {
    DecodedLoopStored(d, b, slots, {});
  }
}
