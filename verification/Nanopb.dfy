/** nanopb: message descriptors, the wire format of a message, and the decoder.

    A message is the values its fields hold.  `Maybe(None)` is a field whose has-flag is clear, or
    a member of a oneof that is not the chosen one; the storage behind it, and behind an empty array,
    is taken to be zero.
    Sections "Base 128 Varints", "Signed Integers" and "Packed Repeated Fields" of the Protocol
    Buffers Encoding specification give the format. */
module Nanopb {
  import opened Keys
  import opened Coding

  /** PB_LTYPE; `size` is the width of an integer in bytes, `cap` the room for contents. */
  datatype Kind =
    | SignedVarint(size: nat) | UnsignedVarint(size: nat) | ZigZagVarint(size: nat) | Fixed4 | Fixed8
    | ByteArray(cap: nat) | Text(cap: nat) | FixedBytes(len: nat) | Sub(desc: Desc)

  /** PB_HTYPE.  An implicit field is a proto3 one, sent unless its value is zero. */
  datatype Rule = Required | Optional | Implicit | Repeated(max: nat) | Oneof(group: nat)

  datatype Field = Field(tag: nat, rule: Rule, kind: Kind, default: Value)
  datatype Desc = Desc(fields: seq<Field>)

  datatype Value = Num(n: int) | Blob(bytes: Bytes) | Msg(slots: seq<Slot>)
  datatype Slot = One(value: Value) | Maybe(opt: Option<Value>) | Many(items: seq<Value>)

  const PB_SIZE_MAX := 255
  const MAX_REQUIRED_FIELDS := 64

  const WT_VARINT := 0
  const WT_64BIT := 1
  const WT_STRING := 2
  const WT_32BIT := 5

  predicate Packable(k: Kind) {
    k.SignedVarint? || k.UnsignedVarint? || k.ZigZagVarint? || k.Fixed4? || k.Fixed8?
  }

  /** The wire type pb_encode_tag_for_field chooses. */
  function WireType(k: Kind): nat {
    match k
    case SignedVarint(_) => WT_VARINT
    case UnsignedVarint(_) => WT_VARINT
    case ZigZagVarint(_) => WT_VARINT
    case Fixed4 => WT_32BIT
    case Fixed8 => WT_64BIT
    case _ => WT_STRING
  }

  // The wire format

  function TagBytes(tag: nat, wireType: nat): Bytes {
    Varint(8 * tag + wireType)
  }

  /** (uint64_t)value. */
  function ToUnsigned(n: int): nat {
    n % TWO64
  }

  /** pb_encode_svarint: twice the value, or the complement of twice a negative one. */
  function ZigZag(n: int): nat {
    if n < 0 then -2 * n - 1 else 2 * n
  }

  function LengthPrefixed(b: Bytes): Bytes {
    Varint(|b|) + b
  }

  /** What strlen finds: the bytes before the first NUL. */
  function CString(b: Bytes): (r: Bytes)
    ensures 0 !in b ==> r == b
    ensures r <= b && 0 !in r
  {
    if b == [] || b[0] == 0 then [] else [b[0]] + CString(b[1..])
  }

  function Wire(k: Kind, v: Value): Bytes
    decreases k, 0
  {
    match v
    case Num(n) =>
      (match k
       case SignedVarint(_) => Varint(ToUnsigned(n))
       case UnsignedVarint(_) => Varint(ToUnsigned(n))
       case ZigZagVarint(_) => Varint(ZigZag(n))
       case Fixed4 => Fixed32(n % TWO32)
       case Fixed8 => Fixed64(n % TWO64)
       case _ => [])
    case Blob(b) => LengthPrefixed(if k.Text? then CString(b) else b)
    case Msg(slots) => if k.Sub? then LengthPrefixed(WireFrom(k.desc, slots, 0)) else []
  }

  function WireItems(k: Kind, items: seq<Value>): Bytes
    decreases k, 1, |items|
  {
    if items == [] then [] else Wire(k, items[0]) + WireItems(k, items[1..])
  }

  function TaggedItems(tag: nat, k: Kind, items: seq<Value>): Bytes
    decreases k, 1, |items|
  {
    if items == [] then [] else TagBytes(tag, WireType(k)) + Wire(k, items[0]) + TaggedItems(tag, k, items[1..])
  }

  function Tagged(f: Field, v: Value): Bytes
    decreases f, 0
  {
    TagBytes(f.tag, WireType(f.kind)) + Wire(f.kind, v)
  }

  /** pb_check_proto3_default_value. */
  predicate IsZero(k: Kind, v: Value)
    decreases k
  {
    match k
    case ByteArray(_) => v == Blob([])
    case Text(_) => v.Blob? && CString(v.bytes) == []
    case FixedBytes(len) => len == 0
    case Sub(d) => v.Msg? && forall i :: 0 <= i < |d.fields| && i < |v.slots| ==> SlotIsZero(d.fields[i], v.slots[i])
    case _ => v == Num(0)
  }

  /** The check looks at the storage of a field and not at its has-flag or its count, so of an array
      it sees the first item. */
  predicate SlotIsZero(f: Field, s: Slot)
    decreases f
  {
    match s
    case One(v) => IsZero(f.kind, v)
    case Maybe(o) => o.None? || IsZero(f.kind, o.value)
    case Many(items) => items == [] || IsZero(f.kind, items[0])
  }

  /** One field, as encode_basic_field and encode_array write it. */
  function WireField(f: Field, s: Slot): Bytes
    decreases f, 1
  {
    match s
    case One(v) => if f.rule.Implicit? && IsZero(f.kind, v) then [] else Tagged(f, v)
    case Maybe(o) => if o.None? then [] else Tagged(f, o.value)
    case Many(items) =>
      if items == [] then []
      else if Packable(f.kind) then TagBytes(f.tag, WT_STRING) + LengthPrefixed(WireItems(f.kind, items))
      else TaggedItems(f.tag, f.kind, items)
  }

  /** The fields from index `i` on. */
  function WireFrom(d: Desc, slots: seq<Slot>, i: nat): Bytes
    decreases d, |d.fields| - i
  {
    if i >= |d.fields| || i >= |slots| then []
    else WireField(d.fields[i], slots[i]) + WireFrom(d, slots, i + 1)
  }

  // Defaults

  function DefaultValue(k: Kind, default: Value): Value
    decreases k
  {
    if k.Sub? then Msg(Defaults(k.desc)) else default
  }

  /** pb_field_set_to_default. */
  function DefaultSlot(f: Field): Slot
    decreases f
  {
    match f.rule
    case Required => One(DefaultValue(f.kind, f.default))
    case Implicit => One(DefaultValue(f.kind, f.default))
    case Optional => Maybe(None)
    case Oneof(_) => Maybe(None)
    case Repeated(_) => Many([])
  }

  function Defaults(d: Desc): seq<Slot>
    decreases d
  {
    seq(|d.fields|, i requires 0 <= i < |d.fields| => DefaultSlot(d.fields[i]))
  }

  // Decoding; None is an error return

  datatype Read<+T> = Read(value: T, rest: Bytes)

  function ReadVarint32(b: Bytes): (r: Option<Read<nat>>)
    ensures r.Some? ==> |r.value.rest| < |b| && r.value.value < TWO32
  {
    match GetVarint(b, 5)
    case None => None
    case Some((v, n)) => Some(Read(v % TWO32, b[n..]))
  }

  function ReadVarint64(b: Bytes): (r: Option<Read<nat>>)
    ensures r.Some? ==> |r.value.rest| < |b| && r.value.value < TWO64
  {
    match GetVarint(b, 10)
    case None => None
    case Some((v, n)) => Some(Read(v % TWO64, b[n..]))
  }

  datatype TagResult = Tag(tag: nat, wireType: nat, rest: Bytes) | EndOfMessage | BadTag

  /** pb_decode_tag: a varint that runs into the end of the stream, and a zero, end the message. */
  function DecodeTag(b: Bytes): (r: TagResult)
    ensures r.Tag? ==> |r.rest| < |b|
  {
    match ReadVarint32(b)
    case None => if |b| <= 5 then EndOfMessage else BadTag
    case Some(Read(v, rest)) => if v == 0 then EndOfMessage else Tag(v / 8, v % 8, rest)
  }

  function SkipVarint(b: Bytes): (r: Option<Bytes>)
    ensures r.Some? ==> |r.value| < |b|
  {
    if b == [] then None else if b[0] >= 128 then SkipVarint(b[1..]) else Some(b[1..])
  }

  function Skip(b: Bytes, n: nat): (r: Option<Bytes>)
    ensures r.Some? ==> |r.value| <= |b|
  {
    if n <= |b| then Some(b[n..]) else None
  }

  function SkipField(wireType: nat, b: Bytes): (r: Option<Bytes>)
    ensures r.Some? ==> |r.value| <= |b|
  {
    if wireType == WT_VARINT then SkipVarint(b)
    else if wireType == WT_64BIT then Skip(b, 8)
    else if wireType == WT_STRING then
      match ReadVarint32(b)
      case None => None
      case Some(Read(n, rest)) => Skip(rest, n)
    else if wireType == WT_32BIT then Skip(b, 4)
    else None
  }

  /** A cast to a signed integer of `bits` / 2 * 2 values. */
  function Signed(v: int, modulus: nat): int
    requires modulus > 0
  {
    var u := v % modulus;
    if u < modulus / 2 then u else u - modulus
  }

  function Modulus(size: nat): (m: nat)
    ensures m >= 1
  {
    if size == 8 then TWO64 else if size == 4 then TWO32 else if size == 2 then 0x1_0000 else if size == 1 then 0x100 else 1
  }

  /** pb_decode_svarint. */
  function UnZigZag(v: nat): int {
    if v % 2 == 1 then -(v / 2) - 1 else v / 2
  }

  function Checked(stored: int, wanted: int, rest: Bytes): (r: Option<Read<Value>>)
    ensures r.Some? ==> r.value.rest == rest
  {
    if stored == wanted then Some(Read(Num(stored), rest)) else None
  }

  /** The integer decoders: cast, store, and compare. */
  function DecodeNumber(k: Kind, b: Bytes): (r: Option<Read<Value>>)
    requires k.SignedVarint? || k.UnsignedVarint? || k.ZigZagVarint?
    ensures r.Some? ==> |r.value.rest| < |b|
  {
    if Modulus(k.size) == 1 then None
    else
      match ReadVarint64(b)
      case None => None
      case Some(Read(v, rest)) =>
        match k
        case SignedVarint(size) =>
          var wide := if size == 8 then Signed(v, TWO64) else Signed(v, TWO32);
          Checked(Signed(wide, Modulus(size)), wide, rest)
        case UnsignedVarint(size) => Checked(v % Modulus(size), v, rest)
        case ZigZagVarint(size) => Checked(Signed(UnZigZag(v), Modulus(size)), UnZigZag(v), rest)
  }

  function Zeros(n: nat): Bytes {
    seq(n, _ => 0)
  }

  function DecodeBlob(k: Kind, b: Bytes): (r: Option<Read<Value>>)
    requires k.ByteArray? || k.Text? || k.FixedBytes?
    ensures r.Some? ==> |r.value.rest| < |b|
  {
    match ReadVarint32(b)
    case None => None
    case Some(Read(n, rest)) =>
      if k.FixedBytes? && n == 0 then Some(Read(Blob(Zeros(k.len)), rest))
      else if k.FixedBytes? && n != k.len then None
      else if k.ByteArray? && (n > PB_SIZE_MAX || n > k.cap) then None
      else if k.Text? && n > k.cap then None
      else if n > |rest| then None
      else Some(Read(Blob(rest[..n]), rest[n..]))
  }

  /** A PB_DECODERS entry.  `prior` is what the destination holds beforehand; only a submessage
      is decoded on top of it. */
  function Decode(k: Kind, b: Bytes, prior: Value): (r: Option<Read<Value>>)
    ensures r.Some? ==> |r.value.rest| < |b|
    decreases k, 0
  {
    match k
    case Fixed4 => if |b| < 4 then None else Some(Read(Num(DecodeFixed32(b)), b[4..]))
    case Fixed8 => if |b| < 8 then None else Some(Read(Num(DecodeFixed64(b)), b[8..]))
    case Sub(d) =>
      (match ReadVarint32(b)
       case None => None
       case Some(Read(n, rest)) =>
         if n > |rest| then None
         else
           match DecodeMessage(d, rest[..n], if prior.Msg? then prior.slots else Defaults(d))
           case None => None
           case Some(slots) => Some(Read(Msg(slots), rest[n..])))
    case ByteArray(_) => DecodeBlob(k, b)
    case Text(_) => DecodeBlob(k, b)
    case FixedBytes(_) => DecodeBlob(k, b)
    case _ => DecodeNumber(k, b)
  }

  /** The loop over a packed array: until the substream is empty or the array full. */
  function DecodePacked(k: Kind, b: Bytes, items: seq<Value>, max: nat): Option<seq<Value>>
    decreases k, 1, |b|
  {
    if b == [] then Some(items)
    else if |items| >= max then None
    else
      match Decode(k, b, Num(0))
      case None => None
      case Some(Read(v, rest)) => DecodePacked(k, rest, items + [v], max)
  }

  /** decode_static_field. */
  function DecodeSlot(f: Field, wireType: nat, b: Bytes, s: Slot): (r: Option<Read<Slot>>)
    ensures r.Some? ==> |r.value.rest| < |b|
    decreases f
  {
    var blank := DefaultValue(f.kind, f.default);
    match f.rule
    case Repeated(max) =>
      var items := if s.Many? then s.items else [];
      if wireType == WT_STRING && Packable(f.kind) then
        match ReadVarint32(b)
        case None => None
        case Some(Read(n, rest)) =>
          if n > |rest| then None
          else
            match DecodePacked(f.kind, rest[..n], items, max)
            case None => None
            case Some(more) => Some(Read(Many(more), rest[n..]))
      else if |items| >= max then None
      else
        (match Decode(f.kind, b, blank)
         case None => None
         case Some(Read(v, rest)) => Some(Read(Many(items + [v]), rest)))
    case Required =>
      (match Decode(f.kind, b, if s.One? then s.value else blank)
       case None => None
       case Some(Read(v, rest)) => Some(Read(One(v), rest)))
    case Implicit =>
      (match Decode(f.kind, b, if s.One? then s.value else blank)
       case None => None
       case Some(Read(v, rest)) => Some(Read(One(v), rest)))
    case Optional =>
      (match Decode(f.kind, b, if s.Maybe? && s.opt.Some? then s.opt.value else blank)
       case None => None
       case Some(Read(v, rest)) => Some(Read(Maybe(Some(v)), rest)))
    case Oneof(_) =>
      (match Decode(f.kind, b, blank)
       case None => None
       case Some(Read(v, rest)) => Some(Read(Maybe(Some(v)), rest)))
  }

  /** The index of a tag, if the descriptor has it. */
  function Find(fields: seq<Field>, tag: nat): (r: Option<nat>)
    ensures r.Some? ==> r.value < |fields| && fields[r.value].tag == tag
    ensures r.None? ==> forall i :: 0 <= i < |fields| ==> fields[i].tag != tag
  {
    if fields == [] then None
    else if fields[|fields| - 1].tag == tag then Some(|fields| - 1)
    else Find(fields[..|fields| - 1], tag)
  }

  /** Choosing a member of a oneof un-chooses the others. */
  function Store(d: Desc, slots: seq<Slot>, i: nat, s: Slot): seq<Slot>
    requires i < |d.fields| && |slots| == |d.fields|
  {
    seq(|slots|, j requires 0 <= j < |slots| =>
      if j == i then s
      else if d.fields[i].rule.Oneof? && d.fields[j].rule == d.fields[i].rule then Maybe(None)
      else slots[j])
  }

  /** The number of required fields before index `i`, and in all. */
  function RequiredBefore(fields: seq<Field>, i: nat): nat
    requires i <= |fields|
  {
    if i == 0 then 0 else RequiredBefore(fields, i - 1) + (if fields[i - 1].rule.Required? then 1 else 0)
  }

  /** The loop of pb_decode_noinit; `seen` is the fields_seen bitmap. */
  function DecodeLoop(d: Desc, b: Bytes, slots: seq<Slot>, seen: set<nat>): (r: Option<(seq<Slot>, set<nat>)>)
    requires |slots| == |d.fields|
    ensures r.Some? ==> |r.value.0| == |d.fields|
    decreases d, 0, |b|
  {
    if b == [] then Some((slots, seen))
    else
      match DecodeTag(b)
      case EndOfMessage => Some((slots, seen))
      case BadTag => None
      case Tag(tag, wireType, rest) =>
        match Find(d.fields, tag)
        case None =>
          // The terminator of an empty descriptor has tag zero, and no valid type.
          if tag == 0 && d.fields == [] then None
          else
          (match SkipField(wireType, rest)
           case None => None
           case Some(after) => DecodeLoop(d, after, slots, seen))
        case Some(i) =>
          var index := RequiredBefore(d.fields, i);
          var seen' := if d.fields[i].rule.Required? && index < MAX_REQUIRED_FIELDS then seen + {index} else seen;
          match DecodeSlot(d.fields[i], wireType, rest, slots[i])
          case None => None
          case Some(Read(s, after)) => DecodeLoop(d, after, Store(d, slots, i, s), seen')
  }

  /** pb_decode_noinit; from `Defaults` it is pb_decode. */
  function DecodeMessage(d: Desc, b: Bytes, slots: seq<Slot>): Option<seq<Slot>>
    decreases d, 1
  {
    if |slots| != |d.fields| then None
    else
      match DecodeLoop(d, b, slots, {})
      case None => None
      case Some((slots', seen)) =>
        if forall i :: 0 <= i < RequiredBefore(d.fields, |d.fields|) ==> i in seen then Some(slots') else None
  }
}
