/** The write-ahead log: framing in 32 KB blocks, writer and reader.

    The checksum is left open: any initial value and any step on one byte will do, since the
    log only relies on the reader computing what the writer computed. */
module LogFormat {
  import opened Keys
  import opened Coding

  const BLOCK_SIZE := 32768
  const HEADER_SIZE := 7

  const FULL := 1
  const FIRST := 2
  const MIDDLE := 3
  const LAST := 4

  datatype Checksum = Checksum(init: U32, step: (U32, Byte) -> U32)

  /** crc32c::Extend, and crc32c::Value as its special case. */
  function Extend(c: Checksum, crc: U32, data: Bytes): U32
    decreases data
  {
    if data == [] then crc else Extend(c, c.step(crc, data[0]), data[1..])
  }

  function Value(c: Checksum, data: Bytes): U32 {
    Extend(c, c.init, data)
  }

  /** The writer starts from the stored checksum of the type byte; the reader does both at once. */
  lemma ExtendIsValue(c: Checksum, kind: Byte, data: Bytes)
    ensures Extend(c, Value(c, [kind]), data) == Value(c, [kind] + data)
  {
    var all := [kind] + data;
    assert all[0] == kind && all[1..] == data;
    assert Extend(c, c.init, all) == Extend(c, c.step(c.init, all[0]), all[1..]);
    assert Extend(c, c.init, [kind]) == Extend(c, c.step(c.init, kind), []);
  }

  const MASK_DELTA := 0xa282_ead8

  /** Rotate right by 15 bits and add a constant, in 32 bits; and back. */
  function Mask(crc: U32): U32 {
    (crc / 0x8000 + crc % 0x8000 * 0x2_0000 + MASK_DELTA) % TWO32
  }

  function Unmask(masked: U32): U32 {
    var rot := (masked - MASK_DELTA) % TWO32;
    rot / 0x2_0000 + rot % 0x2_0000 * 0x8000
  }

  /** The rotation: a multiplication by a power of two, modulo 2^32 - 1. */
  lemma MaskIsRotation(crc: U32)
    ensures var rot := crc * 0x2_0000 - (TWO32 - 1) * (crc / 0x8000);
            0 <= rot < TWO32 && Mask(crc) == (rot + MASK_DELTA) % TWO32
  {
    assert crc == crc / 0x8000 * 0x8000 + crc % 0x8000;
  }

  lemma UnmaskMask(crc: U32)
    ensures Unmask(Mask(crc)) == crc
  {
    var rot := crc / 0x8000 + crc % 0x8000 * 0x2_0000;
    assert 0 <= rot < TWO32;
    assert (Mask(crc) - MASK_DELTA) % TWO32 == rot;
    assert rot / 0x2_0000 == crc % 0x8000 && rot % 0x2_0000 == crc / 0x8000;
  }

  lemma MaskUnmask(masked: U32)
    ensures Mask(Unmask(masked)) == masked
  {
    var rot := (masked - MASK_DELTA) % TWO32;
    var crc := Unmask(masked);
    assert crc / 0x8000 == rot % 0x2_0000 && crc % 0x8000 == rot / 0x2_0000;
    assert (rot + MASK_DELTA) % TWO32 == masked;
  }

  function Zeros(n: nat): Bytes {
    seq(n, _ => 0)
  }

  /** One physical record: masked checksum, length, type, payload. */
  function Physical(c: Checksum, kind: Byte, payload: Bytes): (b: Bytes)
    requires |payload| <= 0xffff
    ensures |b| == HEADER_SIZE + |payload|
  {
    Fixed32(Mask(Value(c, [kind] + payload))) + [|payload| % 256, |payload| / 256, kind] + payload
  }

  /** The room left over at the end of a block that is too small for a header. */
  function Padding(offset: nat): nat
    requires offset <= BLOCK_SIZE
  {
    if BLOCK_SIZE - offset < HEADER_SIZE then BLOCK_SIZE - offset else 0
  }

  /** Where the next header goes. */
  function Place(offset: nat): (p: nat)
    requires offset <= BLOCK_SIZE
    ensures p <= BLOCK_SIZE - HEADER_SIZE
  {
    if BLOCK_SIZE - offset < HEADER_SIZE then 0 else offset
  }

  function Min(a: nat, b: nat): nat { if a < b then a else b }

  /** How much of `data` the next fragment takes. */
  function Take(offset: nat, data: Bytes): (n: nat)
    requires offset <= BLOCK_SIZE
    ensures n <= |data| && Place(offset) + HEADER_SIZE + n <= BLOCK_SIZE
    ensures n < |data| ==> Place(offset) + HEADER_SIZE + n == BLOCK_SIZE
  {
    Min(|data|, BLOCK_SIZE - Place(offset) - HEADER_SIZE)
  }

  function Kind(begin: bool, end: bool): Byte {
    if begin && end then FULL else if begin then FIRST else if end then LAST else MIDDLE
  }

  /** The bytes of one logical record (what is left of it, unless `begin`) written at `offset`. */
  function RecordBytes(c: Checksum, offset: nat, data: Bytes, begin: bool): Bytes
    requires offset <= BLOCK_SIZE
    decreases |data|, Place(offset)
  {
    var n := Take(offset, data);
    var first := Zeros(Padding(offset)) + Physical(c, Kind(begin, n == |data|), data[..n]);
    if n == |data| then first else first + RecordBytes(c, BLOCK_SIZE, data[n..], false)
  }

  function EndOffset(offset: nat, data: Bytes): (r: nat)
    requires offset <= BLOCK_SIZE
    ensures r <= BLOCK_SIZE
    decreases |data|, Place(offset)
  {
    var n := Take(offset, data);
    if n == |data| then Place(offset) + HEADER_SIZE + n else EndOffset(BLOCK_SIZE, data[n..])
  }

  function FileBytes(c: Checksum, offset: nat, records: seq<Bytes>): Bytes
    requires offset <= BLOCK_SIZE
    decreases records
  {
    if records == [] then []
    else RecordBytes(c, offset, records[0], true) + FileBytes(c, EndOffset(offset, records[0]), records[1..])
  }

  class Writer {
    const checksum: Checksum
    var dest: Bytes
    var blockOffset: nat

    ghost predicate Valid()
      reads this
    {
      blockOffset <= BLOCK_SIZE && blockOffset % BLOCK_SIZE == |dest| % BLOCK_SIZE
    }

    /** The writer for a new file or, given a length, for one to be continued. */
    constructor (checksum: Checksum, existing: Bytes)
      ensures Valid() && dest == existing && blockOffset == |existing| % BLOCK_SIZE && this.checksum == checksum
    {
      this.checksum := checksum;
      dest := existing;
      blockOffset := |existing| % BLOCK_SIZE;
    }

    method AddRecord(slice: Bytes)
      requires Valid()
      modifies this
      ensures Valid() && dest == old(dest) + RecordBytes(checksum, old(blockOffset), slice, true)
      ensures blockOffset == EndOffset(old(blockOffset), slice)
    {
      var left := slice;
      var begin := true;
      var more := true;
      ghost var written := [];
      while more
        invariant Valid() && dest == old(dest) + written
        invariant written + (if more then RecordBytes(checksum, blockOffset, left, begin) else [])
               == RecordBytes(checksum, old(blockOffset), slice, true)
        invariant (if more then EndOffset(blockOffset, left) else blockOffset) == EndOffset(old(blockOffset), slice)
        decreases more, |left|, Place(blockOffset)
      {
        ghost var fragment;
        left, fragment := AddFragment(left, begin);
        begin := false;
        more := |left| > 0;
        Regroup(written, fragment, if more then RecordBytes(checksum, blockOffset, left, begin) else []);
        Regroup(old(dest), written, fragment);
        written := written + fragment;
      }
    }

    /** One turn of the loop: as much of the record as the block has room for. */
    method AddFragment(left: Bytes, begin: bool) returns (rest: Bytes, ghost fragment: Bytes)
      requires Valid()
      modifies this
      ensures Valid() && dest == old(dest) + fragment
      ensures RecordBytes(checksum, old(blockOffset), left, begin)
           == fragment + if |rest| > 0 then RecordBytes(checksum, blockOffset, rest, false) else []
      ensures EndOffset(old(blockOffset), left) == if |rest| > 0 then EndOffset(blockOffset, rest) else blockOffset
      ensures |rest| < |left| || (|rest| == |left| && Place(blockOffset) < Place(old(blockOffset))) || |rest| == 0
    {
      ghost var offset := blockOffset;
      SwitchBlock();
      var n := Min(|left|, BLOCK_SIZE - blockOffset - HEADER_SIZE);
      fragment := Zeros(Padding(offset)) + Physical(checksum, Kind(begin, |left| == n), left[..n]);
      EmitPhysicalRecord(Kind(begin, |left| == n), left[..n]);
      Regroup(old(dest), Zeros(Padding(offset)), Physical(checksum, Kind(begin, |left| == n), left[..n]));
      rest := left[n..];
    }

    /** Fills what is left of a block when no header fits there. */
    method SwitchBlock()
      requires Valid()
      modifies this
      ensures dest == old(dest) + Zeros(Padding(old(blockOffset))) && blockOffset == Place(old(blockOffset))
      ensures blockOffset % BLOCK_SIZE == |dest| % BLOCK_SIZE
    {
      var leftover := BLOCK_SIZE - blockOffset;
      if leftover < HEADER_SIZE {
        SameResidue(blockOffset, |dest|, leftover);
        dest := dest + Zeros(leftover);
        blockOffset := 0;
      } else {
        assert dest + Zeros(0) == dest;
      }
    }

    method EmitPhysicalRecord(kind: Byte, payload: Bytes)
      requires blockOffset % BLOCK_SIZE == |dest| % BLOCK_SIZE
      requires |payload| <= 0xffff && blockOffset + HEADER_SIZE + |payload| <= BLOCK_SIZE
      modifies this
      ensures Valid() && dest == old(dest) + Physical(checksum, kind, payload)
      ensures blockOffset == old(blockOffset) + HEADER_SIZE + |payload|
    {
      var crc := Extend(checksum, Value(checksum, [kind]), payload);
      ExtendIsValue(checksum, kind, payload);
      var header := Fixed32(Mask(crc)) + [|payload| % 256, |payload| / 256, kind];
      dest := dest + header;
      dest := dest + payload;
      Regroup(old(dest), header, payload);
      SameResidue(blockOffset, |old(dest)|, HEADER_SIZE + |payload|);
      blockOffset := blockOffset + HEADER_SIZE + |payload|;
    }
  }

  lemma Regroup(a: Bytes, b: Bytes, c: Bytes)
    ensures (a + b) + c == a + (b + c)
  {
  }

  lemma SameResidue(a: nat, b: nat, n: nat)
    requires a % BLOCK_SIZE == b % BLOCK_SIZE
    ensures (a + n) % BLOCK_SIZE == (b + n) % BLOCK_SIZE
  {
  }
}
