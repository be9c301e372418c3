/** pb_decode on bytes that pb_encode with the same descriptor would not write: values out of range,
    fields that occur twice, fields the receiver does not know. */
module NanopbEvolution {
  import opened Keys
  import opened Coding
  import opened Nanopb
  import opened NanopbProofs
  import opened NanopbEncoder
  import NanopbRequired

  // Values

  predicate InRange(n: int, size: nat) {
    -(Modulus(size) / 2) <= n < Modulus(size) / 2
  }

  /** Of an unsigned varint, all 64 bits count. */
  lemma UnsignedExact(size: nat, b: Bytes, v: nat, rest: Bytes)
    requires size in {1, 2, 4, 8} && ReadVarint64(b) == Some(Read(v, rest))
    ensures DecodeNumber(UnsignedVarint(size), b) == if v < Modulus(size) then Some(Read(Num(v), rest)) else None
  {
    if v < Modulus(size) {
      SmallMod(v, Modulus(size));
    }
  }

  /** Of a signed one, all 64 for a 64-bit field, and the low 32 for the others; what does not fit the
      field is rejected. */
  lemma SignedExact(size: nat, b: Bytes, v: nat, rest: Bytes)
    requires size in {1, 2, 4, 8} && ReadVarint64(b) == Some(Read(v, rest))
    ensures var n := Signed(v, if size == 8 then TWO64 else TWO32);
            DecodeNumber(SignedVarint(size), b) == if InRange(n, size) then Some(Read(Num(n), rest)) else None
  {
    StaysIff(Signed(v, if size == 8 then TWO64 else TWO32), size);
  }

  /** Storing in a field of that size changes exactly the numbers out of its range. */
  lemma StaysIff(n: int, size: nat)
    requires size in {1, 2, 4, 8} && -(TWO64 / 2) <= n < TWO64 / 2
    ensures Signed(n, Modulus(size)) == n <==> InRange(n, size)
  {
  }

  lemma ZigZagExact(size: nat, b: Bytes, v: nat, rest: Bytes)
    requires size in {1, 2, 4, 8} && ReadVarint64(b) == Some(Read(v, rest))
    ensures var n := if v % 2 == 0 then v / 2 else -(v + 1) / 2;
            DecodeNumber(ZigZagVarint(size), b) == if InRange(n, size) then Some(Read(Num(n), rest)) else None
  {
    StaysIff(UnZigZag(v), size);
  }

  /** Bytes, strings and fixed-length bytes: accepted exactly when there is room for them. */
  lemma BlobExact(k: Kind, b: Bytes, tail: Bytes)
    requires (k.ByteArray? || k.Text? || k.FixedBytes?) && KindOk(k) && |b| < TWO32
    ensures DecodeBlob(k, LengthPrefixed(b) + tail)
         == match k
            case FixedBytes(len) => if b == [] then Some(Read(Blob(Zeros(len)), tail)) else if |b| == len then Some(Read(Blob(b), tail)) else None
            case ByteArray(cap) => if |b| <= cap then Some(Read(Blob(b), tail)) else None
            case Text(cap) => if |b| <= cap then Some(Read(Blob(b), tail)) else None
            case _ => None
  {
    PrefixReadBack(b, tail);
  }

  // Fields that occur twice

  /** The slot a single value is stored in. */
  function Slotted(f: Field, v: Value): Slot {
    if f.rule.Required? || f.rule.Implicit? then One(v) else Maybe(Some(v))
  }

  lemma SlotOverwritten(f: Field, v: Value, tail: Bytes, s: Slot)
    requires FieldOk(f) && !f.rule.Repeated? && !f.kind.Sub? && ValueIn(f.kind, v, true)
    ensures DecodeSlot(f, WireType(f.kind), Wire(f.kind, v) + tail, s) == Some(Read(Slotted(f, v), tail))
  {
    var prior := match s case One(w) => w case Maybe(Some(w)) => w case _ => DefaultValue(f.kind, f.default);
    ValueReadBack(f.kind, v, tail, DefaultValue(f.kind, f.default));
    ValueReadBack(f.kind, v, tail, prior);
  }

  /** A later occurrence of a field overwrites what was there, whatever it was. */
  lemma {:induction false} Overwrites(d: Desc, i: nat, v: Value, tail: Bytes, cur: seq<Slot>, seen: set<nat>)
    requires DescOk(d) && i < |d.fields| == |cur| && !d.fields[i].rule.Repeated? && !d.fields[i].kind.Sub?
    requires ValueIn(d.fields[i].kind, v, true)
    ensures DecodeLoop(d, Tagged(d.fields[i], v) + tail, cur, seen)
         == DecodeLoop(d, tail, Store(d, cur, i, Slotted(d.fields[i], v)), Mark(d, i, seen))
  {
    var f := d.fields[i];
    SlotOverwritten(f, v, tail, cur[i]);
    Occurrence(d, i, WireType(f.kind), Wire(f.kind, v), tail, cur, seen, Slotted(f, v));
  }

  lemma StoreTwice(d: Desc, cur: seq<Slot>, i: nat, s: Slot, t: Slot)
    requires i < |d.fields| == |cur|
    ensures Store(d, Store(d, cur, i, s), i, t) == Store(d, cur, i, t)
  {
  }

  /** So of two occurrences the last one counts. */
  lemma LastOneWins(d: Desc, i: nat, v: Value, w: Value, tail: Bytes, cur: seq<Slot>, seen: set<nat>)
    requires DescOk(d) && i < |d.fields| == |cur| && !d.fields[i].rule.Repeated? && !d.fields[i].kind.Sub?
    requires ValueIn(d.fields[i].kind, v, true) && ValueIn(d.fields[i].kind, w, true)
    ensures DecodeLoop(d, Tagged(d.fields[i], v) + (Tagged(d.fields[i], w) + tail), cur, seen)
         == DecodeLoop(d, tail, Store(d, cur, i, Slotted(d.fields[i], w)), Mark(d, i, seen))
  {
    var f := d.fields[i];
    var s, t := Slotted(f, v), Slotted(f, w);
    Overwrites(d, i, v, Tagged(f, w) + tail, cur, seen);
    Overwrites(d, i, w, tail, Store(d, cur, i, s), Mark(d, i, seen));
    StoreTwice(d, cur, i, s, t);
    assert Mark(d, i, Mark(d, i, seen)) == Mark(d, i, seen);
  }

  /** A later occurrence of a submessage is decoded on top of the earlier one, so that the two are
      merged field by field; a member of a oneof starts from the defaults again. */
  lemma SubmessagesMerge(d: Desc, i: nat, body: Bytes, prior: seq<Slot>, m: seq<Slot>, tail: Bytes, cur: seq<Slot>, seen: set<nat>)
    requires DescOk(d) && i < |d.fields| == |cur| && !d.fields[i].rule.Repeated? && d.fields[i].kind.Sub? && |body| < TWO32
    requires cur[i] == Slotted(d.fields[i], Msg(prior))
    requires var sub := d.fields[i].kind.desc;
             DecodeMessage(sub, body, if d.fields[i].rule.Oneof? then Defaults(sub) else prior) == Some(m)
    ensures DecodeLoop(d, TagBytes(d.fields[i].tag, WT_STRING) + LengthPrefixed(body) + tail, cur, seen)
         == DecodeLoop(d, tail, Store(d, cur, i, Slotted(d.fields[i], Msg(m))), Mark(d, i, seen))
  {
    var f := d.fields[i];
    assert FieldOk(f);
    PrefixReadBack(body, tail);
    var start := if f.rule.Oneof? then Msg(Defaults(f.kind.desc)) else Msg(prior);
    assert Decode(f.kind, LengthPrefixed(body) + tail, start) == Some(Read(Msg(m), tail));
    Occurrence(d, i, WT_STRING, LengthPrefixed(body), tail, cur, seen, Slotted(f, Msg(m)));
  }

  lemma FullSlot(f: Field, b: Bytes, s: Slot)
    requires f.rule.Repeated? && s.Many? && |s.items| >= f.rule.max
    ensures DecodeSlot(f, WireType(f.kind), b, s) == None
  {
  }

  /** An array that is full takes no further item. */
  lemma FullArrayRejects(d: Desc, i: nat, v: Value, tail: Bytes, cur: seq<Slot>, seen: set<nat>)
    requires DescOk(d) && i < |d.fields| == |cur| && d.fields[i].rule.Repeated?
    requires cur[i].Many? && |cur[i].items| >= d.fields[i].rule.max
    ensures DecodeLoop(d, Tagged(d.fields[i], v) + tail, cur, seen) == None
  {
    var f, b := d.fields[i], Wire(d.fields[i].kind, v) + tail;
    assert FieldOk(f);
    TagReadBack(f, WireType(f.kind), b);
    assert Tagged(f, v) + tail == TagBytes(f.tag, WireType(f.kind)) + b;
    FieldFound(d.fields, i);
    FullSlot(f, b, cur[i]);
  }

  /** A packed array that does not fit is rejected too ... */
  lemma {:induction false} PackedTooMany(k: Kind, done: seq<Value>, items: seq<Value>, max: nat)
    requires KindOk(k) && Packable(k) && forall j :: 0 <= j < |items| ==> ValueIn(k, items[j], true)
    requires items != [] && |done| + |items| > max
    ensures DecodePacked(k, WireItems(k, items), done, max) == None
    decreases |items|
  {
    assert Wire(k, items[0]) != [];
    if |done| < max {
      ValueReadBack(k, items[0], WireItems(k, items[1..]), Num(0));
      PackedTooMany(k, done + [items[0]], items[1..], max);
    }
  }

  lemma PackedRejected(d: Desc, i: nat, items: seq<Value>, done: seq<Value>, tail: Bytes, cur: seq<Slot>, seen: set<nat>)
    requires DescOk(d) && i < |d.fields| == |cur| && d.fields[i].rule.Repeated? && Packable(d.fields[i].kind) && cur[i] == Many(done)
    requires forall j :: 0 <= j < |items| ==> ValueIn(d.fields[i].kind, items[j], true)
    requires items != [] && |done| + |items| > d.fields[i].rule.max && |WireItems(d.fields[i].kind, items)| < TWO32
    ensures DecodeLoop(d, WireField(d.fields[i], Many(items)) + tail, cur, seen) == None
  {
    var f := d.fields[i];
    assert FieldOk(f);
    var body := WireItems(f.kind, items);
    var b := LengthPrefixed(body) + tail;
    PackedTooMany(f.kind, done, items, f.rule.max);
    PrefixReadBack(body, tail);
    assert DecodeSlot(f, WT_STRING, b, cur[i]) == None;
    TagReadBack(f, WT_STRING, b);
    assert WireField(f, Many(items)) + tail == TagBytes(f.tag, WT_STRING) + b;
    FieldFound(d.fields, i);
  }

  /** ... and one whose items each carry a tag. */
  lemma {:induction false} TaggedRejected(d: Desc, i: nat, items: seq<Value>, done: seq<Value>, tail: Bytes, cur: seq<Slot>, seen: set<nat>)
    requires DescOk(d) && i < |d.fields| == |cur| && d.fields[i].rule.Repeated? && cur[i] == Many(done)
    requires forall j :: 0 <= j < |items| ==> ValueIn(d.fields[i].kind, items[j], true)
    requires items != [] && |done| + |items| > d.fields[i].rule.max
    ensures DecodeLoop(d, TaggedItems(d.fields[i].tag, d.fields[i].kind, items) + tail, cur, seen) == None
    decreases |items|
  {
    var f := d.fields[i];
    assert FieldOk(f);
    TaggedItemsFirst(f.tag, f.kind, items, tail);
    var more := TaggedItems(f.tag, f.kind, items[1..]) + tail;
    if |done| >= f.rule.max {
      FullArrayRejects(d, i, items[0], more, cur, seen);
    } else {
      ItemStep(d, i, items[..1], done, more, cur, seen);
      TaggedItemsFirst(f.tag, f.kind, items[..1], more);
      assert items[..1][1..] == [] && [] + more == more;
      TaggedRejected(d, i, items[1..], done + [items[0]], tail, cur[i := Many(done + [items[0]])], seen);
    }
  }

  /** An array goes on behind the items already there, packed or with a tag on every item, exactly when
      all of them fit; otherwise the message is rejected. */
  lemma ArrayFitsIff(d: Desc, i: nat, items: seq<Value>, done: seq<Value>, packed: bool, tail: Bytes, cur: seq<Slot>, seen: set<nat>)
    requires DescOk(d) && i < |d.fields| == |cur| && d.fields[i].rule.Repeated? && cur[i] == Many(done) && items != []
    requires forall j :: 0 <= j < |items| ==> ValueIn(d.fields[i].kind, items[j], true)
    requires packed ==> Packable(d.fields[i].kind) && |WireItems(d.fields[i].kind, items)| < TWO32
    ensures var f := d.fields[i];
            var b := if packed then WireField(f, Many(items)) else TaggedItems(f.tag, f.kind, items);
            && (|done| + |items| <= f.rule.max ==> DecodeLoop(d, b + tail, cur, seen) == DecodeLoop(d, tail, cur[i := Many(done + items)], seen))
            && (|done| + |items| > f.rule.max ==> DecodeLoop(d, b + tail, cur, seen) == None)
  {
    assert FieldOk(d.fields[i]);
    if |done| + |items| > d.fields[i].rule.max {
      if packed {
        PackedRejected(d, i, items, done, tail, cur, seen);
      } else {
        TaggedRejected(d, i, items, done, tail, cur, seen);
      }
    } else if packed {
      PackedStep(d, i, items, done, tail, cur, seen);
    } else {
      ItemsStep(d, i, items, done, tail, cur, seen);
    }
  }

  /** The encoder refuses an array exactly when its own decoder would. */
  lemma RefusedAlike(d: Desc, i: nat, items: seq<Value>, cur: seq<Slot>, seen: set<nat>)
    requires DescOk(d) && i < |d.fields| == |cur| && d.fields[i].rule.Repeated? && cur[i] == Many([])
    requires forall j :: 0 <= j < |items| ==> ValueIn(d.fields[i].kind, items[j], true)
    requires |WireItems(d.fields[i].kind, items)| < TWO32
    ensures SlotEncodable(d.fields[i], Many(items)) <==> DecodeLoop(d, WireField(d.fields[i], Many(items)), cur, seen).Some?
  {
    var f := d.fields[i];
    var b := WireField(f, Many(items));
    assert FieldOk(f) && b + [] == b;
    if items != [] {
      ArrayFitsIff(d, i, items, [], Packable(f.kind), [], cur, seen);
      forall j | 0 <= j < |items| ensures Encodable(f.kind, items[j]) {
        FittingIsEncodable(f.kind, items[j], true);
      }
    }
  }

  /** And of bytes the same. */
  lemma BytesRefusedAlike(cap: nat, b: Bytes, tail: Bytes)
    requires cap <= PB_SIZE_MAX && |b| < TWO32
    ensures Encodable(ByteArray(cap), Blob(b)) <==> DecodeBlob(ByteArray(cap), Wire(ByteArray(cap), Blob(b)) + tail).Some?
  {
    BlobExact(ByteArray(cap), b, tail);
  }

  // Fields the receiver does not know

  /** A value is skipped by its wire type alone, exactly to its end. */
  lemma {:induction false} SkipValue(k: Kind, v: Value, tail: Bytes)
    requires KindOk(k) && ValueIn(k, v, true)
    ensures SkipField(WireType(k), Wire(k, v) + tail) == Some(tail)
  {
    match k {
      case Fixed4 => assert (Wire(k, v) + tail)[4..] == tail;
      case Fixed8 => assert (Wire(k, v) + tail)[8..] == tail;
      case SignedVarint(_) => SkipsVarint(ToUnsigned(v.n), tail);
      case UnsignedVarint(_) => SkipsVarint(ToUnsigned(v.n), tail);
      case ZigZagVarint(_) => SkipsVarint(ZigZag(v.n), tail);
      case ByteArray(_) => PrefixReadBack(v.bytes, tail);
      case Text(_) => PrefixReadBack(v.bytes, tail);
      case FixedBytes(_) => PrefixReadBack(v.bytes, tail);
      case Sub(d) => PrefixReadBack(WireFrom(d, v.slots, 0), tail);
    }
  }

  lemma {:induction false} SkipsVarint(v: nat, tail: Bytes)
    ensures SkipVarint(Varint(v) + tail) == Some(tail)
  {
    var b := Varint(v) + tail;
    if v < 128 {
      assert b[1..] == tail;
    } else {
      assert b[1..] == Varint(v / 128) + tail;
      SkipsVarint(v / 128, tail);
    }
  }

  ghost predicate Unknown(d: Desc, tag: nat) {
    forall j :: 0 <= j < |d.fields| ==> d.fields[j].tag != tag
  }

  /** One tagged value of an unknown field. */
  lemma SkipOne(d: Desc, f: Field, wireType: nat, payload: Bytes, tail: Bytes, cur: seq<Slot>, seen: set<nat>)
    requires |cur| == |d.fields| && FieldOk(f) && Unknown(d, f.tag) && wireType < 8
    requires SkipField(wireType, payload + tail) == Some(tail)
    ensures DecodeLoop(d, TagBytes(f.tag, wireType) + payload + tail, cur, seen) == DecodeLoop(d, tail, cur, seen)
  {
    TagReadBack(f, wireType, payload + tail);
    assert TagBytes(f.tag, wireType) + payload + tail == TagBytes(f.tag, wireType) + (payload + tail);
    var k := Find(d.fields, f.tag);
  }

  lemma {:induction false} SkipItems(d: Desc, f: Field, items: seq<Value>, tail: Bytes, cur: seq<Slot>, seen: set<nat>)
    requires |cur| == |d.fields| && FieldOk(f) && Unknown(d, f.tag)
    requires forall j :: 0 <= j < |items| ==> ValueIn(f.kind, items[j], true)
    ensures DecodeLoop(d, TaggedItems(f.tag, f.kind, items) + tail, cur, seen) == DecodeLoop(d, tail, cur, seen)
    decreases |items|
  {
    if items == [] {
      assert [] + tail == tail;
    } else {
      var more := TaggedItems(f.tag, f.kind, items[1..]) + tail;
      TaggedItemsFirst(f.tag, f.kind, items, tail);
      SkipValue(f.kind, items[0], more);
      SkipOne(d, f, WireType(f.kind), Wire(f.kind, items[0]), more, cur, seen);
      SkipItems(d, f, items[1..], tail, cur, seen);
    }
  }

  /** What a sender writes for a field the receiver does not know leaves no trace. */
  lemma {:induction false} SkipUnknown(d: Desc, f: Field, s: Slot, tail: Bytes, cur: seq<Slot>, seen: set<nat>)
    requires |cur| == |d.fields| && FieldOk(f) && Unknown(d, f.tag) && SlotIn(f, s, true)
    ensures DecodeLoop(d, WireField(f, s) + tail, cur, seen) == DecodeLoop(d, tail, cur, seen)
  {
    if WireField(f, s) == [] {
      assert [] + tail == tail;
    } else if s.Many? && Packable(f.kind) {
      var body := WireItems(f.kind, s.items);
      PackedLength(f.kind, s.items);
      PrefixReadBack(body, tail);
      SkipOne(d, f, WT_STRING, LengthPrefixed(body), tail, cur, seen);
    } else if s.Many? {
      SkipItems(d, f, s.items, tail, cur, seen);
    } else {
      var v := if s.One? then s.value else s.opt.value;
      SkipValue(f.kind, v, tail);
      SkipOne(d, f, WireType(f.kind), Wire(f.kind, v), tail, cur, seen);
    }
  }

  /** Wire types that do not exist are an error. */
  lemma UnknownWireType(d: Desc, f: Field, wireType: nat, tail: Bytes, cur: seq<Slot>, seen: set<nat>)
    requires |cur| == |d.fields| && FieldOk(f) && Unknown(d, f.tag) && wireType in {3, 4, 6, 7}
    ensures DecodeLoop(d, TagBytes(f.tag, wireType) + tail, cur, seen) == None
  {
    TagReadBack(f, wireType, tail);
    var k := Find(d.fields, f.tag);
  }

  /** A zero byte in place of a tag ends the message. */
  lemma ZeroEnds(d: Desc, tail: Bytes, cur: seq<Slot>, seen: set<nat>)
    requires |cur| == |d.fields|
    ensures DecodeLoop(d, [0] + tail, cur, seen) == Some((cur, seen))
  {
    assert [0] == Varint(0);
    ReadBack32(0, tail);
  }

  /** So does a tag that is cut off: the message so far is taken for the whole. */
  lemma CutTagEnds(d: Desc, f: Field, wireType: nat, n: nat, cur: seq<Slot>, seen: set<nat>)
    requires |cur| == |d.fields| && FieldOk(f) && wireType < 8 && n < |TagBytes(f.tag, wireType)|
    ensures DecodeLoop(d, TagBytes(f.tag, wireType)[..n], cur, seen) == Some((cur, seen))
  {
    VarintTruncated(8 * f.tag + wireType, n, 5);
    VarintLengths(8 * f.tag + wireType);
  }

  // Fields in any order, from a sender with another descriptor

  /** A field as some sender wrote it. */
  datatype Chunk = Chunk(field: Field, slot: Slot)

  function WireChunks(cs: seq<Chunk>): Bytes {
    if cs == [] then [] else WireField(cs[0].field, cs[0].slot) + WireChunks(cs[1..])
  }

  /** The receiver has the field, or none of that tag. */
  ghost predicate Understood(d: Desc, f: Field) {
    Unknown(d, f.tag) || exists j :: 0 <= j < |d.fields| && d.fields[j] == f
  }

  predicate Chosen(c: Chunk) {
    c.field.rule.Oneof? && c.slot != Maybe(None)
  }

  /** Every tag once, every value in its range, at most one member of a oneof, and where sender and
      receiver both know a tag they agree on the field. */
  ghost predicate ChunksOk(d: Desc, cs: seq<Chunk>) {
    && (forall k :: 0 <= k < |cs| ==> FieldOk(cs[k].field) && SlotIn(cs[k].field, cs[k].slot, true) && Understood(d, cs[k].field))
    && (forall j, k :: 0 <= j < k < |cs| ==> cs[j].field.tag != cs[k].field.tag)
    && (forall j, k :: 0 <= j < k < |cs| && Chosen(cs[j]) && Chosen(cs[k]) ==> cs[j].field.rule != cs[k].field.rule)
  }

  function Put(d: Desc, cur: seq<Slot>, c: Chunk): (r: seq<Slot>)
    requires |cur| == |d.fields|
    ensures |r| == |cur|
  {
    match Find(d.fields, c.field.tag) case None => cur case Some(i) => cur[i := c.slot]
  }

  function MarkChunk(d: Desc, c: Chunk, seen: set<nat>): set<nat> {
    match Find(d.fields, c.field.tag) case None => seen case Some(i) => Mark(d, i, seen)
  }

  function PutAll(d: Desc, cur: seq<Slot>, cs: seq<Chunk>): (r: seq<Slot>)
    requires |cur| == |d.fields|
    ensures |r| == |cur|
    decreases |cs|
  {
    if cs == [] then cur else PutAll(d, Put(d, cur, cs[0]), cs[1..])
  }

  function MarkAll(d: Desc, cs: seq<Chunk>, seen: set<nat>): set<nat>
    decreases |cs|
  {
    if cs == [] then seen else MarkAll(d, cs[1..], MarkChunk(d, cs[0], seen))
  }

  /** The fields still to come are at their defaults, and no other member of a oneof to come is chosen. */
  ghost predicate Awaits(d: Desc, cur: seq<Slot>, cs: seq<Chunk>)
    requires |cur| == |d.fields|
  {
    && (forall k, j :: 0 <= k < |cs| && 0 <= j < |cur| && d.fields[j].tag == cs[k].field.tag ==> cur[j] == DefaultSlot(d.fields[j]))
    && (forall k, j :: 0 <= k < |cs| && 0 <= j < |cur| && Chosen(cs[k]) && d.fields[j].rule == cs[k].field.rule ==> cur[j] == Maybe(None))
  }

  lemma KnownField(d: Desc, f: Field) returns (i: nat)
    requires DescOk(d) && Understood(d, f) && !Unknown(d, f.tag)
    ensures i < |d.fields| && d.fields[i] == f && Find(d.fields, f.tag) == Some(i)
  {
    i :| 0 <= i < |d.fields| && d.fields[i] == f;
    FieldFound(d.fields, i);
  }

  lemma ChunkStep(d: Desc, cs: seq<Chunk>, cur: seq<Slot>, seen: set<nat>)
    requires DescOk(d) && |cur| == |d.fields| && cs != [] && ChunksOk(d, cs) && Awaits(d, cur, cs)
    ensures DecodeLoop(d, WireChunks(cs), cur, seen) == DecodeLoop(d, WireChunks(cs[1..]), Put(d, cur, cs[0]), MarkChunk(d, cs[0], seen))
    ensures Awaits(d, Put(d, cur, cs[0]), cs[1..]) && ChunksOk(d, cs[1..])
  {
    var c, tail := cs[0], WireChunks(cs[1..]);
    if Unknown(d, c.field.tag) {
      SkipUnknown(d, c.field, c.slot, tail, cur, seen);
      assert Find(d.fields, c.field.tag) == None;
      FewerAwaited(d, cs, cur);
    } else {
      var i := KnownField(d, c.field);
      if Chosen(c) {
        assert OthersUnset(d, cur, i);
      }
      FieldOnto(d, i, c.slot, tail, cur, seen);
      OneLessAwaited(d, cs, cur, i);
    }
  }

  lemma FewerAwaited(d: Desc, cs: seq<Chunk>, cur: seq<Slot>)
    requires |cur| == |d.fields| && cs != [] && ChunksOk(d, cs) && Awaits(d, cur, cs)
    ensures Awaits(d, cur, cs[1..]) && ChunksOk(d, cs[1..])
  {
    var rest := cs[1..];
    assert forall k :: 0 <= k < |rest| ==> rest[k] == cs[k + 1];
  }

  lemma OneLessAwaited(d: Desc, cs: seq<Chunk>, cur: seq<Slot>, i: nat)
    requires DescOk(d) && |cur| == |d.fields| && cs != [] && ChunksOk(d, cs) && Awaits(d, cur, cs)
    requires i < |d.fields| && d.fields[i] == cs[0].field
    ensures Awaits(d, cur[i := cs[0].slot], cs[1..]) && ChunksOk(d, cs[1..])
  {
    FewerAwaited(d, cs, cur);
    var rest, after := cs[1..], cur[i := cs[0].slot];
    forall k, j | 0 <= k < |rest| && 0 <= j < |after| && d.fields[j].tag == rest[k].field.tag
      ensures after[j] == DefaultSlot(d.fields[j])
    {
      assert rest[k] == cs[k + 1];
    }
    forall k, j | 0 <= k < |rest| && 0 <= j < |after| && Chosen(rest[k]) && d.fields[j].rule == rest[k].field.rule
      ensures after[j] == Maybe(None)
    {
      assert rest[k] == cs[k + 1];
      assert SlotIn(cs[0].field, cs[0].slot, true);
    }
  }

  lemma {:induction false} ChunksLoop(d: Desc, cs: seq<Chunk>, cur: seq<Slot>, seen: set<nat>)
    requires DescOk(d) && |cur| == |d.fields| && ChunksOk(d, cs) && Awaits(d, cur, cs)
    ensures DecodeLoop(d, WireChunks(cs), cur, seen) == Some((PutAll(d, cur, cs), MarkAll(d, cs, seen)))
    decreases |cs|
  {
    if cs != [] {
      ChunkStep(d, cs, cur, seen);
      ChunksLoop(d, cs[1..], Put(d, cur, cs[0]), MarkChunk(d, cs[0], seen));
    }
  }

  ghost predicate Sends(cs: seq<Chunk>, tag: nat) {
    exists k :: 0 <= k < |cs| && cs[k].field.tag == tag
  }

  /** A field gets the value sent for its tag, and keeps what it has when none is. */
  lemma {:induction false} PutAllIs(d: Desc, cs: seq<Chunk>, cur: seq<Slot>, j: nat)
    requires DescOk(d) && |cur| == |d.fields| && ChunksOk(d, cs) && j < |cur|
    ensures forall k :: 0 <= k < |cs| && cs[k].field.tag == d.fields[j].tag ==> PutAll(d, cur, cs)[j] == cs[k].slot
    ensures !Sends(cs, d.fields[j].tag) ==> PutAll(d, cur, cs)[j] == cur[j]
    decreases |cs|
  {
    if cs != [] {
      var rest := cs[1..];
      assert forall k :: 0 <= k < |rest| ==> rest[k] == cs[k + 1];
      PutAllIs(d, rest, Put(d, cur, cs[0]), j);
      FieldFound(d.fields, j);
      assert cs[0].field.tag == d.fields[j].tag ==> !Sends(rest, d.fields[j].tag);
      assert Sends(rest, d.fields[j].tag) ==> Sends(cs, d.fields[j].tag);
    }
  }

  /** Of the required fields exactly those sent are seen. */
  lemma {:induction false} MarkAllIs(d: Desc, cs: seq<Chunk>, seen: set<nat>, j: nat)
    requires DescOk(d) && j < |d.fields| && d.fields[j].rule.Required?
    ensures RequiredBefore(d.fields, j) in MarkAll(d, cs, seen) <==> RequiredBefore(d.fields, j) in seen || Sends(cs, d.fields[j].tag)
    decreases |cs|
  {
    if cs != [] {
      MarkAllIs(d, cs[1..], MarkChunk(d, cs[0], seen), j);
      MarkChunkIs(d, cs[0], seen, j);
      assert forall k :: 0 <= k < |cs| - 1 ==> cs[1..][k] == cs[k + 1];
      assert Sends(cs, d.fields[j].tag) <==> cs[0].field.tag == d.fields[j].tag || Sends(cs[1..], d.fields[j].tag);
    }
  }

  lemma MarkChunkIs(d: Desc, c: Chunk, seen: set<nat>, j: nat)
    requires DescOk(d) && j < |d.fields| && d.fields[j].rule.Required?
    ensures RequiredBefore(d.fields, j) in MarkChunk(d, c, seen) <==> RequiredBefore(d.fields, j) in seen || c.field.tag == d.fields[j].tag
  {
    FieldFound(d.fields, j);
    RequiredGrows(d.fields, j + 1, |d.fields|);
    match Find(d.fields, c.field.tag)
    case None =>
    case Some(i) =>
      if i < j {
        RequiredGrows(d.fields, i + 1, j);
      } else if j < i {
        RequiredGrows(d.fields, j + 1, i);
      }
  }

  /** The message the chunks make: what was sent for each field the receiver has, and the defaults. */
  ghost predicate Assembles(d: Desc, cs: seq<Chunk>, m: seq<Slot>) {
    && |m| == |d.fields|
    && (forall j, k :: 0 <= j < |m| && 0 <= k < |cs| && cs[k].field.tag == d.fields[j].tag ==> m[j] == cs[k].slot)
    && (forall j :: 0 <= j < |m| && !Sends(cs, d.fields[j].tag) ==> m[j] == DefaultSlot(d.fields[j]))
  }

  ghost predicate Lacks(d: Desc, cs: seq<Chunk>) {
    exists j :: 0 <= j < |d.fields| && d.fields[j].rule.Required? && !Sends(cs, d.fields[j].tag)
  }

  /** Every place among the required fields is some field's. */
  lemma {:induction false} RequiredField(fields: seq<Field>, n: nat, x: nat) returns (j: nat)
    requires n <= |fields| && x < RequiredBefore(fields, n)
    ensures j < n && fields[j].rule.Required? && RequiredBefore(fields, j) == x
  {
    if x < RequiredBefore(fields, n - 1) {
      j := RequiredField(fields, n - 1, x);
    } else {
      j := n - 1;
    }
  }

  lemma AllSent(d: Desc, cs: seq<Chunk>)
    requires DescOk(d)
    ensures (forall x :: 0 <= x < RequiredBefore(d.fields, |d.fields|) ==> x in MarkAll(d, cs, {})) <==> !Lacks(d, cs)
  {
    if Lacks(d, cs) {
      var j :| 0 <= j < |d.fields| && d.fields[j].rule.Required? && !Sends(cs, d.fields[j].tag);
      MarkAllIs(d, cs, {}, j);
      RequiredGrows(d.fields, j + 1, |d.fields|);
    } else {
      forall x | 0 <= x < RequiredBefore(d.fields, |d.fields|) ensures x in MarkAll(d, cs, {}) {
        var j := RequiredField(d.fields, |d.fields|, x);
        MarkAllIs(d, cs, {}, j);
      }
    }
  }

  /** Fields in any order, and among them fields the receiver does not know: pb_decode fails exactly
      when a required field is not sent, and otherwise gives what was sent and the defaults. */
  lemma DecodeChunks(d: Desc, cs: seq<Chunk>)
    requires DescOk(d) && ChunksOk(d, cs)
    ensures Lacks(d, cs) ==> DecodeMessage(d, WireChunks(cs), Defaults(d)) == None
    ensures !Lacks(d, cs) ==> exists m :: DecodeMessage(d, WireChunks(cs), Defaults(d)) == Some(m) && Assembles(d, cs, m)
  {
    var m := PutAll(d, Defaults(d), cs);
    ChunksLoop(d, cs, Defaults(d), {});
    NanopbRequired.AfterLoop(d, WireChunks(cs), m, MarkAll(d, cs, {}));
    AllSent(d, cs);
    Assembled(d, cs);
  }

  lemma Assembled(d: Desc, cs: seq<Chunk>)
    requires DescOk(d) && ChunksOk(d, cs)
    ensures Assembles(d, cs, PutAll(d, Defaults(d), cs))
  {
    forall j | 0 <= j < |d.fields|
      ensures forall k :: 0 <= k < |cs| && cs[k].field.tag == d.fields[j].tag ==> PutAll(d, Defaults(d), cs)[j] == cs[k].slot
      ensures !Sends(cs, d.fields[j].tag) ==> PutAll(d, Defaults(d), cs)[j] == DefaultSlot(d.fields[j])
    {
      PutAllIs(d, cs, Defaults(d), j);
    }
  }
}
