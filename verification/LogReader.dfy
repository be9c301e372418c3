/** log::Reader, read from the start of the file with checksums on: every branch of the reader,
    and what it returns on a log cut off at an arbitrary byte. */
module LogReader {
  import opened Keys
  import opened Coding
  import opened LogFormat

  /** What the reader holds: the unread part of the current block, the file beyond it, and
      whether the last block came back short. */
  datatype Input = Input(buffer: Bytes, rest: Bytes, eof: bool)

  datatype Phys = Record(kind: Byte, payload: Bytes) | Eof | Bad

  /** `drops`: the sizes passed to Reporter::Corruption. */
  datatype PhysResult = PhysResult(phys: Phys, input: Input, drops: seq<nat>)

  function Size(i: Input): nat { |i.buffer| + |i.rest| }

  /** SequentialFile::Read of one block. */
  function ReadBlock(i: Input): Input {
    var n := Min(BLOCK_SIZE, |i.rest|);
    Input(i.rest[..n], i.rest[n..], n < BLOCK_SIZE)
  }

  /** The part of ReadPhysicalRecord after the header is known to be in the buffer. */
  function ParsePhysical(c: Checksum, i: Input): (r: PhysResult)
    requires |i.buffer| >= HEADER_SIZE
    ensures Size(r.input) < Size(i) || r.phys.Eof?
  {
    var header := i.buffer;
    var length := header[4] + header[5] as int * 256;
    var kind := header[6];
    var cleared := i.(buffer := []);
    if HEADER_SIZE + length > |header| then
      if i.eof then PhysResult(Eof, cleared, []) else PhysResult(Bad, cleared, [|header|])
    else if kind == 0 && length == 0 then
      PhysResult(Bad, cleared, [])
    else if Value(c, header[6..7 + length]) != Unmask(DecodeFixed32(header)) then
      PhysResult(Bad, cleared, [|header|])
    else
      PhysResult(Record(kind, header[HEADER_SIZE..HEADER_SIZE + length]), i.(buffer := header[HEADER_SIZE + length..]), [])
  }

  function ReadPhysical(c: Checksum, i: Input): (r: PhysResult)
    ensures Size(r.input) < Size(i) || r.phys.Eof?
    decreases if i.eof then 0 else 1, |i.rest|
  {
    if |i.buffer| >= HEADER_SIZE then ParsePhysical(c, i)
    else if !i.eof then ReadPhysical(c, ReadBlock(i))
    else PhysResult(Eof, i.(buffer := []), [])
  }

  datatype LogicalResult = LogicalResult(record: Option<Bytes>, input: Input, drops: seq<nat>)

  datatype Turn = Return(record: Option<Bytes>, drops: seq<nat>) | Continue(scratch: Option<Bytes>, drops: seq<nat>)

  /** One turn of the loop in ReadRecord; `scratch` is Some while inside a fragmented record. */
  function TakeTurn(phys: Phys, scratch: Option<Bytes>, drops: seq<nat>): Turn {
    var pending := if scratch.Some? then scratch.value else [];
    match phys
    case Eof => Return(None, drops)
    case Bad => Continue(None, if scratch.Some? then drops + [|pending|] else drops)
    case Record(kind, payload) =>
      if kind == FULL then Return(Some(payload), if pending == [] then drops else drops + [|pending|])
      else if kind == FIRST then Continue(Some(payload), if pending == [] then drops else drops + [|pending|])
      else if kind == MIDDLE then
        if scratch.None? then Continue(None, drops + [|payload|]) else Continue(Some(pending + payload), drops)
      else if kind == LAST then
        if scratch.None? then Continue(None, drops + [|payload|]) else Return(Some(pending + payload), drops)
      else Continue(None, drops + [|payload| + |pending|])
  }

  function ReadLogical(c: Checksum, i: Input, scratch: Option<Bytes>, drops: seq<nat>): (r: LogicalResult)
    ensures r.record.Some? ==> Size(r.input) < Size(i)
    decreases Size(i)
  {
    var p := ReadPhysical(c, i);
    match TakeTurn(p.phys, scratch, drops + p.drops)
    case Return(record, drops) => LogicalResult(record, p.input, drops)
    case Continue(scratch, drops) => if p.phys.Eof? then LogicalResult(None, p.input, drops) else ReadLogical(c, p.input, scratch, drops)
  }

  /** Calling ReadRecord until it returns false: the records, and all drops reported. */
  function ReadAll(c: Checksum, i: Input, drops: seq<nat>): (r: (seq<Bytes>, seq<nat>))
    decreases Size(i)
  {
    var r := ReadLogical(c, i, None, drops);
    if r.record.None? then ([], r.drops)
    else
      var more := ReadAll(c, r.input, r.drops);
      ([r.record.value] + more.0, more.1)
  }

  class Reader {
    const checksum: Checksum
    var rest: Bytes
    var buffer: Bytes
    var eof: bool
    var drops: seq<nat>

    function State(): Input
      reads this
    {
      Input(buffer, rest, eof)
    }

    constructor (checksum: Checksum, file: Bytes)
      ensures State() == Input([], file, false) && drops == [] && this.checksum == checksum
    {
      this.checksum, rest, buffer, eof, drops := checksum, file, [], false, [];
    }

    method ReadPhysicalRecord() returns (phys: Phys)
      modifies this
      ensures var r := ReadPhysical(checksum, old(State()));
              phys == r.phys && State() == r.input && drops == old(drops) + r.drops
    {
      while true
        invariant ReadPhysical(checksum, old(State())) == ReadPhysical(checksum, State()) && drops == old(drops)
        decreases if eof then 0 else 1, |rest|
      {
        if |buffer| < HEADER_SIZE {
          if !eof {
            var n := Min(BLOCK_SIZE, |rest|);
            buffer, rest := rest[..n], rest[n..];
            if |buffer| < BLOCK_SIZE {
              eof := true;
            }
            continue;
          } else {
            buffer := [];
            return Eof;
          }
        }
        phys := ParseRecord();
        return;
      }
    }

    /** The part that parses the header and checks the record. */
    method ParseRecord() returns (phys: Phys)
      requires |buffer| >= HEADER_SIZE
      modifies this
      ensures var r := ReadPhysical(checksum, old(State()));
              phys == r.phys && State() == r.input && drops == old(drops) + r.drops
    {
      var header := buffer;
      var length := header[4] + header[5] as int * 256;
      var kind := header[6];
      if HEADER_SIZE + length > |buffer| {
        buffer := [];
        if !eof {
          drops := drops + [|header|];
          return Bad;
        }
        return Eof;
      }
      if kind == 0 && length == 0 {
        buffer := [];
        return Bad;
      }
      if Value(checksum, header[6..7 + length]) != Unmask(DecodeFixed32(header)) {
        buffer := [];
        drops := drops + [|header|];
        return Bad;
      }
      buffer := buffer[HEADER_SIZE + length..];
      return Record(kind, header[HEADER_SIZE..HEADER_SIZE + length]);
    }

    method ReadRecord() returns (record: Option<Bytes>)
      modifies this
      ensures LogicalResult(record, State(), drops) == ReadLogical(checksum, old(State()), None, old(drops))
    {
      var scratch, inFragmentedRecord := [], false;
      ghost var result := ReadLogical(checksum, State(), None, drops);
      while true
        invariant !inFragmentedRecord ==> scratch == []
        invariant result == ReadLogical(checksum, State(), if inFragmentedRecord then Some(scratch) else None, drops)
        decreases Size(State())
      {
        var phys := ReadPhysicalRecord();
        var done;
        done, record, inFragmentedRecord, scratch := TakeRecord(phys, inFragmentedRecord, scratch);
        if done {
          return;
        }
      }
    }

    /** The switch over the kind of a physical record. */
    method TakeRecord(phys: Phys, before: bool, pending: Bytes)
      returns (done: bool, record: Option<Bytes>, inFragmentedRecord: bool, scratch: Bytes)
      requires !before ==> pending == []
      modifies this`drops
      ensures TakeTurn(phys, if before then Some(pending) else None, old(drops))
           == if done then Return(record, drops) else Continue(if inFragmentedRecord then Some(scratch) else None, drops)
      ensures (!inFragmentedRecord ==> done || scratch == []) && (phys.Eof? ==> done)
    {
      done, record, inFragmentedRecord, scratch := false, None, before, pending;
      match phys {
        case Eof =>
          done := true;
        case Bad =>
          if inFragmentedRecord {
            drops := drops + [|scratch|];
          }
          inFragmentedRecord, scratch := false, [];
        case Record(kind, payload) =>
          if kind == FULL || kind == FIRST {
            if inFragmentedRecord && scratch != [] {
              drops := drops + [|scratch|];
            }
            if kind == FULL {
              done, record := true, Some(payload);
              return;
            }
            scratch, inFragmentedRecord := payload, true;
          } else if kind == MIDDLE || kind == LAST {
            if !inFragmentedRecord {
              drops := drops + [|payload|];
            } else {
              scratch := scratch + payload;
              if kind == LAST {
                done, record := true, Some(scratch);
              }
            }
          } else {
            drops := drops + [|payload| + |scratch|];
            inFragmentedRecord, scratch := false, [];
          }
      }
    }
  }

  /** Reads a whole log, as recovery does. */
  method ReadWhole(r: Reader) returns (records: seq<Bytes>)
    modifies r
    ensures (records, r.drops) == ReadAll(r.checksum, old(r.State()), old(r.drops))
  {
    records := [];
    ghost var all := ReadAll(r.checksum, r.State(), r.drops);
    NoneBefore(all);
    while true
      invariant all == Prepend(records, ReadAll(r.checksum, r.State(), r.drops))
      decreases Size(r.State())
    {
      ghost var more := ReadAll(r.checksum, r.State(), r.drops);
      var record := r.ReadRecord();
      if record.None? {
        assert more == ([], r.drops);
        assert records + [] == records;
        return;
      }
      OneMore(records, record.value, more, ReadAll(r.checksum, r.State(), r.drops));
      records := records + [record.value];
    }
  }

  ghost function Prepend(records: seq<Bytes>, rest: (seq<Bytes>, seq<nat>)): (seq<Bytes>, seq<nat>) {
    (records + rest.0, rest.1)
  }

  lemma NoneBefore(all: (seq<Bytes>, seq<nat>))
    ensures Prepend([], all) == all
  {
    assert [] + all.0 == all.0;
  }

  lemma OneMore(records: seq<Bytes>, record: Bytes, more: (seq<Bytes>, seq<nat>), rest: (seq<Bytes>, seq<nat>))
    requires more == ([record] + rest.0, rest.1)
    ensures Prepend(records, more) == Prepend(records + [record], rest)
  {
    assert records + ([record] + rest.0) == records + [record] + rest.0;
  }
}
