/** Reading back what the writer wrote, whole or cut off at any byte. */
module LogProofs {
  import opened Keys
  import opened Coding
  import opened LogFormat
  import opened LogReader

  /** The reader is `offset` bytes into a block and has `stream` left to read. */
  ghost predicate Aligned(offset: nat, i: Input, stream: Bytes) {
    && offset <= BLOCK_SIZE && i.buffer + i.rest == stream
    && |i.buffer| == Min(BLOCK_SIZE - offset, |stream|)
    && (i.eof <==> |stream| < BLOCK_SIZE - offset)
  }

  lemma NextBlock(offset: nat, i: Input, stream: Bytes)
    requires Aligned(offset, i, stream) && |stream| >= BLOCK_SIZE - offset
    ensures Aligned(0, ReadBlock(i), stream[BLOCK_SIZE - offset..])
  {
    assert i.rest == stream[BLOCK_SIZE - offset..];
    var b := ReadBlock(i);
    assert b.buffer + b.rest == i.rest;
  }

  /** The header and payload as the reader sees them. */
  lemma HeaderFields(c: Checksum, kind: Byte, payload: Bytes, buffer: Bytes)
    requires |payload| <= 0xffff && |buffer| >= HEADER_SIZE
    requires var p := Physical(c, kind, payload); forall k :: 0 <= k < Min(|buffer|, |p|) ==> buffer[k] == p[k]
    ensures buffer[6] == kind && buffer[4] + buffer[5] as int * 256 == |payload|
    ensures |buffer| >= HEADER_SIZE + |payload| ==>
              && buffer[6..7 + |payload|] == [kind] + payload && buffer[HEADER_SIZE..HEADER_SIZE + |payload|] == payload
              && Unmask(DecodeFixed32(buffer)) == Value(c, [kind] + payload)
  {
    var p := Physical(c, kind, payload);
    var crc := Mask(Value(c, [kind] + payload));
    assert p[4] == |payload| % 256 && p[5] == |payload| / 256 && p[6] == kind;
    if |buffer| >= HEADER_SIZE + |payload| {
      assert buffer[6..7 + |payload|] == p[6..] == [kind] + payload;
      assert buffer[HEADER_SIZE..HEADER_SIZE + |payload|] == p[HEADER_SIZE..] == payload;
      assert buffer[..4] == p[..4] == Fixed32(crc);
      assert buffer == Fixed32(crc) + buffer[4..];
      Fixed32RoundTrip(crc, buffer[4..]);
      UnmaskMask(Value(c, [kind] + payload));
    }
  }

  predicate Known(kind: Byte) { FULL <= kind <= LAST }

  /** A physical record at the reader's place, complete or cut off. */
  lemma ParseStep(c: Checksum, offset: nat, i: Input, stream: Bytes, kind: Byte, payload: Bytes, tail: Bytes, n: nat)
    requires offset + HEADER_SIZE + |payload| <= BLOCK_SIZE && Known(kind)
    requires Aligned(offset, i, stream)
    requires var all := Physical(c, kind, payload) + tail; n <= |all| && stream == all[..n]
    ensures var size, r := HEADER_SIZE + |payload|, ReadPhysical(c, i);
            && r.drops == []
            && (n < size ==> r.phys == Eof)
            && (n >= size ==> r.phys == Record(kind, payload) && Aligned(offset + size, r.input, tail[..n - size]))
  {
    var size, all := HEADER_SIZE + |payload|, Physical(c, kind, payload) + tail;
    assert forall k :: 0 <= k < |i.buffer| ==> i.buffer[k] == stream[k] == all[k];
    if n >= HEADER_SIZE {
      HeaderFields(c, kind, payload, i.buffer);
      if n >= size {
        var after := i.(buffer := i.buffer[size..]);
        assert after.buffer + after.rest == stream[size..] == tail[..n - size];
      }
    }
  }

  /** The same, from the end of the previous record: the reader first skips the padding. */
  lemma PhysicalStep(c: Checksum, offset: nat, i: Input, stream: Bytes, kind: Byte, payload: Bytes, tail: Bytes, n: nat)
    requires offset <= BLOCK_SIZE && Place(offset) + HEADER_SIZE + |payload| <= BLOCK_SIZE && Known(kind)
    requires Aligned(offset, i, stream)
    requires var all := Zeros(Padding(offset)) + (Physical(c, kind, payload) + tail); n <= |all| && stream == all[..n]
    ensures var size, r := Padding(offset) + HEADER_SIZE + |payload|, ReadPhysical(c, i);
            && r.drops == []
            && (n < size ==> r.phys == Eof)
            && (n >= size ==> r.phys == Record(kind, payload)
                              && Aligned(Place(offset) + HEADER_SIZE + |payload|, r.input, tail[..n - size]))
  {
    var pad, all := Padding(offset), Physical(c, kind, payload) + tail;
    if BLOCK_SIZE - offset >= HEADER_SIZE {
      assert Zeros(0) + all == all;
      ParseStep(c, offset, i, stream, kind, payload, tail, n);
    } else if n >= pad {
      NextBlock(offset, i, stream);
      assert stream[pad..] == all[..n - pad];
      ParseStep(c, 0, ReadBlock(i), stream[pad..], kind, payload, tail, n - pad);
    }
  }

  /** What reading a logical record, begun or continued, comes to when the file ends `n` bytes
      on: the record, if it is complete, and in no case a report. */
  ghost predicate ReadsRecord(c: Checksum, offset: nat, data: Bytes, tail: Bytes, n: nat, i: Input, scratch: Option<Bytes>, drops: seq<nat>)
    requires offset <= BLOCK_SIZE
  {
    var size, r := |RecordBytes(c, offset, data, scratch.None?)|, ReadLogical(c, i, scratch, drops);
    && r.drops == drops && (n < size ==> r.record == None)
    && (n >= size ==>
          && n - size <= |tail| && Aligned(EndOffset(offset, data), r.input, tail[..n - size])
          && r.record == Some((if scratch.Some? then scratch.value else []) + data))
  }

  /** A record whose next fragment is its last, or is cut off. */
  lemma LastFragment(c: Checksum, offset: nat, data: Bytes, tail: Bytes, n: nat, i: Input, scratch: Option<Bytes>, drops: seq<nat>)
    requires offset <= BLOCK_SIZE
    requires var k, p := Take(offset, data), ReadPhysical(c, i);
             var first := Padding(offset) + HEADER_SIZE + k;
             && p.drops == [] && (k == |data| || n < first)
             && (n < first ==> p.phys == Eof)
             && (n >= first ==> p.phys == Record(Kind(scratch.None?, true), data) && n - first <= |tail|
                                && Aligned(Place(offset) + HEADER_SIZE + k, p.input, tail[..n - first]))
    ensures ReadsRecord(c, offset, data, tail, n, i, scratch, drops)
  {
    assert drops + [] == drops;
    FragmentTurn(scratch, data, true, drops);
  }

  /** A record with a complete fragment that more are to follow. */
  lemma MoreFragments(c: Checksum, offset: nat, data: Bytes, tail: Bytes, n: nat, i: Input, scratch: Option<Bytes>, drops: seq<nat>)
    requires offset <= BLOCK_SIZE
    requires var k, p := Take(offset, data), ReadPhysical(c, i);
             var first, pending := Padding(offset) + HEADER_SIZE + k, if scratch.Some? then scratch.value else [];
             && p.drops == [] && k < |data| && n >= first && p.phys == Record(Kind(scratch.None?, false), data[..k])
             && ReadsRecord(c, BLOCK_SIZE, data[k..], tail, n - first, p.input, Some(pending + data[..k]), drops)
    ensures ReadsRecord(c, offset, data, tail, n, i, scratch, drops)
  {
    var k := Take(offset, data);
    var pending := if scratch.Some? then scratch.value else [];
    ReadsOn(c, i, data[..k], scratch, drops);
    SizeSplit(c, offset, data, scratch.None?);
    assert pending + data[..k] + data[k..] == pending + data;
  }

  lemma ReadsOn(c: Checksum, i: Input, payload: Bytes, scratch: Option<Bytes>, drops: seq<nat>)
    requires var p := ReadPhysical(c, i); p.drops == [] && p.phys == Record(Kind(scratch.None?, false), payload)
    ensures var pending := if scratch.Some? then scratch.value else [];
            ReadLogical(c, i, scratch, drops) == ReadLogical(c, ReadPhysical(c, i).input, Some(pending + payload), drops)
  {
    assert drops + [] == drops;
    FragmentTurn(scratch, payload, false, drops);
  }

  lemma SizeSplit(c: Checksum, offset: nat, data: Bytes, begin: bool)
    requires offset <= BLOCK_SIZE && Take(offset, data) < |data|
    ensures var k := Take(offset, data);
            && |RecordBytes(c, offset, data, begin)| == Padding(offset) + HEADER_SIZE + k + |RecordBytes(c, BLOCK_SIZE, data[k..], false)|
            && EndOffset(offset, data) == EndOffset(BLOCK_SIZE, data[k..])
  {
  }

  lemma {:induction false} RecordStep(c: Checksum, offset: nat, data: Bytes, tail: Bytes, n: nat,
                                      i: Input, stream: Bytes, scratch: Option<Bytes>, drops: seq<nat>)
    requires Aligned(offset, i, stream)
    requires var all := RecordBytes(c, offset, data, scratch.None?) + tail; n <= |all| && stream == all[..n]
    ensures ReadsRecord(c, offset, data, tail, n, i, scratch, drops)
    decreases |data|, Place(offset)
  {
    var begin, k := scratch.None?, Take(offset, data);
    var more := (if k == |data| then [] else RecordBytes(c, BLOCK_SIZE, data[k..], false)) + tail;
    var first := Padding(offset) + HEADER_SIZE + k;
    RecordSplit(c, offset, data, begin, tail);
    PhysicalStep(c, offset, i, stream, Kind(begin, k == |data|), data[..k], more, n);
    if k == |data| || n < first {
      assert k == |data| ==> data[..k] == data && more == tail;
      LastFragment(c, offset, data, tail, n, i, scratch, drops);
    } else {
      var pending := if begin then [] else scratch.value;
      RecordStep(c, BLOCK_SIZE, data[k..], tail, n - first, ReadPhysical(c, i).input, more[..n - first], Some(pending + data[..k]), drops);
      MoreFragments(c, offset, data, tail, n, i, scratch, drops);
    }
  }

  /** What ReadRecord does with the next fragment of the record it is in. */
  lemma FragmentTurn(scratch: Option<Bytes>, payload: Bytes, end: bool, drops: seq<nat>)
    ensures var pending := if scratch.Some? then scratch.value else [];
            TakeTurn(Record(Kind(scratch.None?, end), payload), scratch, drops)
            == if end then Return(Some(pending + payload), drops) else Continue(Some(pending + payload), drops)
  {
    assert [] + payload == payload;
  }

  lemma RecordSplit(c: Checksum, offset: nat, data: Bytes, begin: bool, tail: Bytes)
    requires offset <= BLOCK_SIZE
    ensures var k := Take(offset, data);
            var more := (if k == |data| then [] else RecordBytes(c, BLOCK_SIZE, data[k..], false)) + tail;
            RecordBytes(c, offset, data, begin) + tail
            == Zeros(Padding(offset)) + (Physical(c, Kind(begin, k == |data|), data[..k]) + more)
  {
  }

  /** How many of the records lie within the first `n` bytes of the file. */
  function Whole(c: Checksum, offset: nat, records: seq<Bytes>, n: nat): (k: nat)
    requires offset <= BLOCK_SIZE
    ensures k <= |records|
    decreases records
  {
    if records == [] || n < |RecordBytes(c, offset, records[0], true)| then 0
    else 1 + Whole(c, EndOffset(offset, records[0]), records[1..], n - |RecordBytes(c, offset, records[0], true)|)
  }

  /** Whatever byte the file ends at, reading it returns exactly the records that are complete,
      in order, and reports no corruption. */
  lemma TornLogReads(c: Checksum, offset: nat, records: seq<Bytes>, n: nat, i: Input, stream: Bytes)
    requires Aligned(offset, i, stream)
    requires n <= |FileBytes(c, offset, records)| && stream == FileBytes(c, offset, records)[..n]
    ensures ReadAll(c, i, []) == (records[..Whole(c, offset, records, n)], [])
  {
    TornReads(c, offset, records, n, i, stream);
  }

  lemma {:induction false} TornReads(c: Checksum, offset: nat, records: seq<Bytes>, n: nat, i: Input, stream: Bytes)
    requires Aligned(offset, i, stream)
    requires n <= |FileBytes(c, offset, records)| && stream == FileBytes(c, offset, records)[..n]
    ensures ReadsAll(c, i, records[..Whole(c, offset, records, n)])
    decreases records
  {
    if records == [] {
      NothingLeft(c, offset, i);
    } else {
      var size, next, tail, r := TornFirst(c, offset, records, n, i, stream);
      if n >= size {
        var rest := records[1..];
        var k := Whole(c, next, rest, n - size);
        TornReads(c, next, rest, n - size, r.input, tail[..n - size]);
        OneMoreRecord(c, i, records, r, rest[..k], k);
      } else {
        NoMoreRecords(c, i, r);
      }
    }
  }

  /** The first record of a file cut at byte `n`. */
  lemma TornFirst(c: Checksum, offset: nat, records: seq<Bytes>, n: nat, i: Input, stream: Bytes)
    returns (size: nat, next: nat, tail: Bytes, r: LogicalResult)
    requires Aligned(offset, i, stream) && records != []
    requires n <= |FileBytes(c, offset, records)| && stream == FileBytes(c, offset, records)[..n]
    ensures next == EndOffset(offset, records[0]) && tail == FileBytes(c, next, records[1..])
    ensures Whole(c, offset, records, n) == if n < size then 0 else 1 + Whole(c, next, records[1..], n - size)
    ensures r == ReadLogical(c, i, None, []) && r.drops == [] && (n < size ==> r.record == None)
    ensures n >= size ==> n - size <= |tail| && r.record == Some(records[0]) && Aligned(next, r.input, tail[..n - size])
  {
    size, next := |RecordBytes(c, offset, records[0], true)|, EndOffset(offset, records[0]);
    tail := FileBytes(c, next, records[1..]);
    FileFirst(c, offset, records);
    RecordStep(c, offset, records[0], tail, n, i, stream, None, []);
    assert [] + records[0] == records[0];
    r := ReadLogical(c, i, None, []);
  }

  lemma FileFirst(c: Checksum, offset: nat, records: seq<Bytes>)
    requires offset <= BLOCK_SIZE && records != []
    ensures FileBytes(c, offset, records) == RecordBytes(c, offset, records[0], true) + FileBytes(c, EndOffset(offset, records[0]), records[1..])
  {
  }

  lemma NoMoreRecords(c: Checksum, i: Input, r: LogicalResult)
    requires r == ReadLogical(c, i, None, []) && r.drops == [] && r.record == None
    ensures ReadsAll(c, i, [])
  {
  }

  /** Reading to the end gives these records and no report. */
  ghost predicate ReadsAll(c: Checksum, i: Input, records: seq<Bytes>) {
    ReadAll(c, i, []) == (records, [])
  }

  lemma OneMoreRecord(c: Checksum, i: Input, records: seq<Bytes>, r: LogicalResult, more: seq<Bytes>, k: nat)
    requires k < |records| && more == records[1..][..k]
    requires r == ReadLogical(c, i, None, []) && r.drops == [] && r.record == Some(records[0])
    requires ReadsAll(c, r.input, more)
    ensures ReadsAll(c, i, records[..k + 1])
  {
    ConsPrefix(records, k);
  }

  lemma ConsPrefix(records: seq<Bytes>, k: nat)
    requires k < |records|
    ensures [records[0]] + records[1..][..k] == records[..k + 1]
  {
  }

  lemma NothingLeft(c: Checksum, offset: nat, i: Input)
    requires Aligned(offset, i, [])
    ensures ReadAll(c, i, []) == ([], [])
  {
    var b := ReadBlock(i);
    assert i.buffer == [] && i.rest == [];
    assert ReadPhysical(c, i) == (if i.eof then PhysResult(Eof, i.(buffer := []), []) else ReadPhysical(c, b));
  }

  lemma {:induction false} WholeFile(c: Checksum, offset: nat, records: seq<Bytes>, n: nat)
    requires offset <= BLOCK_SIZE && n >= |FileBytes(c, offset, records)|
    ensures Whole(c, offset, records, n) == |records|
    decreases records
  {
    if records != [] {
      WholeFile(c, EndOffset(offset, records[0]), records[1..], n - |RecordBytes(c, offset, records[0], true)|);
    }
  }

  /** Cutting later loses no record that an earlier cut keeps. */
  lemma {:induction false} WholeIsMonotone(c: Checksum, offset: nat, records: seq<Bytes>, m: nat, n: nat)
    requires offset <= BLOCK_SIZE && m <= n
    ensures Whole(c, offset, records, m) <= Whole(c, offset, records, n)
    decreases records
  {
    if records != [] && m >= |RecordBytes(c, offset, records[0], true)| {
      var size := |RecordBytes(c, offset, records[0], true)|;
      WholeIsMonotone(c, EndOffset(offset, records[0]), records[1..], m - size, n - size);
    }
  }

  /** A block that is full is as good as a new one. */
  lemma SameFromBlockEnd(c: Checksum, records: seq<Bytes>, n: nat)
    ensures FileBytes(c, BLOCK_SIZE, records) == FileBytes(c, 0, records)
    ensures Whole(c, BLOCK_SIZE, records, n) == Whole(c, 0, records, n)
  {
    if records != [] {
      assert Take(BLOCK_SIZE, records[0]) == Take(0, records[0]);
      assert Zeros(Padding(BLOCK_SIZE)) == Zeros(Padding(0));
    }
  }

  /** Writer and reader together: records appended to an empty log that a crash cuts off at any
      byte come back as the prefix of complete records, all of them if nothing is lost. */
  method WriteThenRead(c: Checksum, records: seq<Bytes>, cut: nat) returns (read: seq<Bytes>, drops: seq<nat>)
    ensures drops == [] && read == records[..Whole(c, 0, records, cut)]
    ensures cut >= |FileBytes(c, 0, records)| ==> read == records
  {
    var w := new Writer(c, []);
    for k := 0 to |records|
      invariant w.Valid() && fresh(w) && w.checksum == c
      invariant w.dest + FileBytes(c, w.blockOffset, records[k..]) == FileBytes(c, 0, records)
    {
      ghost var before, offset := w.dest, w.blockOffset;
      w.AddRecord(records[k]);
      assert records[k..][1..] == records[k + 1..];
      Regroup(before, RecordBytes(c, offset, records[k], true), FileBytes(c, w.blockOffset, records[k + 1..]));
    }
    assert w.dest == FileBytes(c, 0, records);
    var file := if cut < |w.dest| then w.dest[..cut] else w.dest;
    var r := new Reader(c, file);
    SameFromBlockEnd(c, records, |file|);
    TornLogReads(c, BLOCK_SIZE, records, |file|, r.State(), file);
    read := ReadWhole(r);
    drops := r.drops;
    if cut >= |w.dest| {
      WholeFile(c, 0, records, cut);
      WholeFile(c, 0, records, |file|);
      assert records[..|records|] == records;
    }
  }
}
