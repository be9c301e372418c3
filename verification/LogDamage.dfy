/** Reading any bytes at all: which records the reader returns, and what it reports.

    `Scan` lists what ReadPhysicalRecord finds, one item after another.  A record is returned exactly
    when its fragments stand in that list, complete and next to each other, and every fragment is in
    the file byte for byte as the writer lays it out, checksum included. */
module LogDamage {
  import opened Keys
  import opened Coding
  import opened LogFormat
  import opened LogReader

  // One physical record

  /** The length in a header. */
  function Length(header: Bytes): nat
    requires |header| >= HEADER_SIZE
  {
    header[4] + header[5] as int * 256
  }

  ghost predicate StartsWith(b: Bytes, c: Checksum, kind: Byte, payload: Bytes) {
    |payload| <= 0xffff && Physical(c, kind, payload) <= b
  }

  /** The header and payload at the front of the buffer are those of a record if and only if the
      checksum is right. */
  lemma ChecksumDecides(c: Checksum, b: Bytes)
    requires |b| >= HEADER_SIZE && HEADER_SIZE + Length(b) <= |b|
    ensures var n := Length(b);
            StartsWith(b, c, b[6], b[HEADER_SIZE..HEADER_SIZE + n]) <==> Value(c, b[6..7 + n]) == Unmask(DecodeFixed32(b))
  {
    var n := Length(b);
    var payload := b[HEADER_SIZE..HEADER_SIZE + n];
    var crc := Value(c, [b[6]] + payload);
    var p := Physical(c, b[6], payload);
    assert b[6..7 + n] == [b[6]] + payload;
    MaskUnmask(DecodeFixed32(b));
    UnmaskMask(crc);
    Fixed32Back(b);
    if crc == Unmask(DecodeFixed32(b)) {
      assert b[..HEADER_SIZE + n] == b[..4] + [b[4], b[5], b[6]] + payload;
      assert p == b[..HEADER_SIZE + n];
    }
    if p <= b {
      assert b[..4] == p[..4] == Fixed32(Mask(crc));
      Fixed32RoundTrip(Mask(crc), b[4..]);
      assert Fixed32(Mask(crc)) + b[4..] == b;
    }
  }

  lemma HeaderOf(b: Bytes, c: Checksum, kind: Byte, payload: Bytes)
    requires StartsWith(b, c, kind, payload)
    ensures |b| >= HEADER_SIZE + |payload| && b[6] == kind && Length(b) == |payload|
    ensures b[HEADER_SIZE..HEADER_SIZE + |payload|] == payload
  {
    var p := Physical(c, kind, payload);
    assert p[4] == |payload| % 256 && p[5] == |payload| / 256 && p[6] == kind && p[HEADER_SIZE..] == payload;
    assert b[..|p|] == p;
  }

  /** A record is returned if and only if the buffer starts with its bytes, and then exactly these are
      used up; a record of no type and no bytes is filler. */
  lemma RecordIsExact(c: Checksum, i: Input, kind: Byte, payload: Bytes)
    requires |i.buffer| >= HEADER_SIZE
    ensures var r := ParsePhysical(c, i);
            && (r.phys == Record(kind, payload) <==> StartsWith(i.buffer, c, kind, payload) && !(kind == 0 && payload == []))
            && (r.phys == Record(kind, payload) ==> i.buffer == Physical(c, kind, payload) + r.input.buffer && r.input.rest == i.rest && r.drops == [])
  {
    var b := i.buffer;
    if HEADER_SIZE + Length(b) <= |b| {
      ChecksumDecides(c, b);
    }
    if StartsWith(b, c, kind, payload) {
      HeaderOf(b, c, kind, payload);
    }
  }

  /** Whatever else the buffer starts with, all of it is given up.  It is reported, unless it is filler
      or the last record of the file is cut short. */
  lemma DamageIsReported(c: Checksum, i: Input)
    requires |i.buffer| >= HEADER_SIZE
    ensures var r, n := ParsePhysical(c, i), Length(i.buffer);
            && (!r.phys.Record? ==> r.input == i.(buffer := []))
            && (r.phys.Eof? <==> i.eof && HEADER_SIZE + n > |i.buffer|)
            && (r.phys.Bad? ==> r.drops == if i.buffer[6] == 0 && n == 0 then [] else [|i.buffer|])
            && (HEADER_SIZE + n <= |i.buffer| && Value(c, i.buffer[6..7 + n]) != Unmask(DecodeFixed32(i.buffer)) ==> r.phys == Bad)
  {
  }

  // Where it is in the file

  function Stream(i: Input): Bytes { i.buffer + i.rest }

  predicate Suffix(a: Bytes, b: Bytes) {
    |a| <= |b| && b[|b| - |a|..] == a
  }

  lemma SuffixTransitive(a: Bytes, b: Bytes, c: Bytes)
    requires Suffix(a, b) && Suffix(b, c)
    ensures Suffix(a, c)
  {
  }

  /** The bytes of a fragment stand in the file right before the last `left` ones. */
  ghost predicate Intact(c: Checksum, file: Bytes, kind: Byte, payload: Bytes, left: nat) {
    && |payload| <= 0xffff && left + HEADER_SIZE + |payload| <= |file|
    && file[|file| - left - HEADER_SIZE - |payload|..|file| - left] == Physical(c, kind, payload)
  }

  /** The front part of what is left of the file has its place there. */
  lemma InFile(file: Bytes, part: Bytes, rest: Bytes)
    requires Suffix(part + rest, file)
    ensures Suffix(rest, file) && file[|file| - |rest| - |part|..|file| - |rest|] == part
  {
    var s := part + rest;
    var at := |file| - |s|;
    assert file[at..][..|part|] == part && file[at..][|part|..] == rest;
    assert file[at..at + |part|] == file[at..][..|part|];
  }

  lemma ParseInFile(c: Checksum, i: Input, file: Bytes)
    requires |i.buffer| >= HEADER_SIZE && Suffix(Stream(i), file)
    ensures var r := ParsePhysical(c, i);
            && Suffix(Stream(r.input), file)
            && (r.phys.Record? ==> Intact(c, file, r.phys.kind, r.phys.payload, Size(r.input)))
  {
    var r := ParsePhysical(c, i);
    if r.phys.Record? {
      RecordIsExact(c, i, r.phys.kind, r.phys.payload);
      var p := Physical(c, r.phys.kind, r.phys.payload);
      assert Stream(i) == p + Stream(r.input);
      InFile(file, p, Stream(r.input));
    } else {
      InFile(file, i.buffer, i.rest);
      assert Stream(r.input) == i.rest;
    }
  }

  lemma {:induction false} PhysicalInFile(c: Checksum, i: Input, file: Bytes)
    requires Suffix(Stream(i), file)
    ensures var r := ReadPhysical(c, i);
            && Suffix(Stream(r.input), file)
            && (r.phys.Record? ==> Intact(c, file, r.phys.kind, r.phys.payload, Size(r.input)))
    decreases if i.eof then 0 else 1, |i.rest|
  {
    if |i.buffer| >= HEADER_SIZE {
      ParseInFile(c, i, file);
    } else if !i.eof {
      var b := ReadBlock(i);
      assert Stream(b) == i.rest && Suffix(Stream(b), Stream(i));
      SuffixTransitive(Stream(b), Stream(i), file);
      PhysicalInFile(c, b, file);
    } else {
      assert Suffix(i.rest, Stream(i));
      SuffixTransitive(i.rest, Stream(i), file);
      assert Stream(i.(buffer := [])) == i.rest;
    }
  }

  // All that is found

  /** `left` is how much of the file comes after it. */
  datatype Item = Item(phys: Phys, drops: seq<nat>, left: nat)

  function Scan(c: Checksum, i: Input): (r: seq<Item>)
    decreases Size(i)
  {
    var p := ReadPhysical(c, i);
    if p.phys.Eof? then [] else [Item(p.phys, p.drops, Size(p.input))] + Scan(c, p.input)
  }

  ghost predicate ItemOk(c: Checksum, file: Bytes, it: Item) {
    !it.phys.Eof? && (it.phys.Record? ==> Intact(c, file, it.phys.kind, it.phys.payload, it.left))
  }

  /** Every record found is in the file, and each item ends before the next one does. */
  lemma {:induction false} ScanInFile(c: Checksum, i: Input, file: Bytes)
    requires Suffix(Stream(i), file)
    ensures forall k :: 0 <= k < |Scan(c, i)| ==> ItemOk(c, file, Scan(c, i)[k]) && Scan(c, i)[k].left < Size(i)
    ensures forall j, k :: 0 <= j < k < |Scan(c, i)| ==> Scan(c, i)[k].left < Scan(c, i)[j].left
    decreases Size(i)
  {
    var p := ReadPhysical(c, i);
    PhysicalInFile(c, i, file);
    if !p.phys.Eof? {
      ScanInFile(c, p.input, file);
    }
  }

  // Records out of fragments

  ghost predicate KindAt(items: seq<Item>, k: nat, kind: Byte) {
    k < |items| && items[k].phys.Record? && items[k].phys.kind == kind
  }

  /** An unfinished record: a first fragment and middle ones. */
  ghost predicate Begun(items: seq<Item>, a: nat, b: nat) {
    a < b <= |items| && KindAt(items, a, FIRST) && forall k :: a < k < b ==> KindAt(items, k, MIDDLE)
  }

  /** A complete record: one full fragment, or a first one, middle ones and a last one, in a row. */
  ghost predicate Framed(items: seq<Item>, a: nat, b: nat) {
    b > 0 && ((a == b - 1 && KindAt(items, a, FULL)) || (Begun(items, a, b - 1) && KindAt(items, b - 1, LAST)))
  }

  /** Where the unfinished record begins after item `k`, when it began at `open` before it. */
  ghost function NextOpen(items: seq<Item>, k: nat, open: Option<nat>): Option<nat> {
    if KindAt(items, k, FIRST) then Some(k) else if KindAt(items, k, MIDDLE) then open else None
  }

  datatype Range = Range(begin: nat, end: nat)

  /** The complete records from item `k` on; `open` is where an unfinished one begins. */
  ghost function Frames(items: seq<Item>, k: nat, open: Option<nat>): seq<Range>
    requires k <= |items|
    decreases |items| - k
  {
    if k == |items| then []
    else if KindAt(items, k, FULL) then [Range(k, k + 1)] + Frames(items, k + 1, None)
    else if KindAt(items, k, FIRST) then Frames(items, k + 1, Some(k))
    else if KindAt(items, k, MIDDLE) then Frames(items, k + 1, open)
    else if KindAt(items, k, LAST) && open.Some? then [Range(open.value, k + 1)] + Frames(items, k + 1, None)
    else Frames(items, k + 1, None)
  }

  ghost predicate OpenOk(items: seq<Item>, k: nat, open: Option<nat>) {
    open.Some? ==> Begun(items, open.value, k)
  }

  /** No other unfinished record reaches up to `k`. */
  ghost predicate OnlyOpen(items: seq<Item>, k: nat, open: Option<nat>) {
    OpenOk(items, k, open) && forall a: nat :: Begun(items, a, k) ==> open == Some(a)
  }

  /** `Frames` has exactly the complete records that end after `k`. */
  lemma {:induction false} FramesAreFramed(items: seq<Item>, k: nat, open: Option<nat>, r: Range)
    requires k <= |items| && OnlyOpen(items, k, open)
    ensures r in Frames(items, k, open) <==> Framed(items, r.begin, r.end) && k < r.end
    decreases |items| - k
  {
    if k < |items| {
      var next := NextOpen(items, k, open);
      OpenMoves(items, k, open, next);
      FramesAreFramed(items, k + 1, next, r);
    }
  }

  lemma OpenMoves(items: seq<Item>, k: nat, open: Option<nat>, next: Option<nat>)
    requires k < |items| && OnlyOpen(items, k, open)
    requires next == NextOpen(items, k, open)
    ensures OnlyOpen(items, k + 1, next)
  {
    forall a: nat | Begun(items, a, k + 1)
      ensures next == Some(a)
    {
      if a < k {
        assert KindAt(items, k, MIDDLE) && Begun(items, a, k);
      }
    }
  }

  /** Ranges one after the other, from `k` on, except that the first may be the open one. */
  ghost predicate InARow(fs: seq<Range>, k: nat, open: Option<nat>) {
    && (forall n :: 0 <= n < |fs| ==> fs[n].begin < fs[n].end && (n > 0 || open != Some(fs[n].begin) ==> k <= fs[n].begin))
    && (forall m, n :: 0 <= m < n < |fs| ==> fs[m].end <= fs[n].begin)
  }

  /** Item `k` completes a record. */
  ghost predicate Completes(items: seq<Item>, k: nat, open: Option<nat>) {
    KindAt(items, k, FULL) || (KindAt(items, k, LAST) && open.Some?)
  }

  lemma FramesStep(items: seq<Item>, k: nat, open: Option<nat>)
    requires k < |items|
    ensures Frames(items, k, open) == if Completes(items, k, open)
                                      then [Range(if KindAt(items, k, FULL) then k else open.value, k + 1)] + Frames(items, k + 1, None)
                                      else Frames(items, k + 1, NextOpen(items, k, open))
  {
  }

  lemma {:induction false} FramesAscend(items: seq<Item>, k: nat, open: Option<nat>)
    requires k <= |items| && OpenOk(items, k, open)
    ensures InARow(Frames(items, k, open), k, open)
    decreases |items| - k
  {
    if k < |items| {
      FramesStep(items, k, open);
      if Completes(items, k, open) {
        FramesAscend(items, k + 1, None);
        OneMoreInARow(Range(if KindAt(items, k, FULL) then k else open.value, k + 1), Frames(items, k + 1, None), k, open);
      } else {
        FramesAscend(items, k + 1, NextOpen(items, k, open));
      }
    }
  }

  lemma OneMoreInARow(r: Range, rest: seq<Range>, k: nat, open: Option<nat>)
    requires InARow(rest, k + 1, None) && r.begin < r.end == k + 1 && (r.begin == k || open == Some(r.begin))
    ensures InARow([r] + rest, k, open)
  {
    var fs := [r] + rest;
    forall n | 1 <= n < |fs|
      ensures fs[n] == rest[n - 1] && k + 1 <= fs[n].begin < fs[n].end
    {
    }
  }

  ghost function PayloadAt(items: seq<Item>, k: nat): Bytes {
    if k < |items| && items[k].phys.Record? then items[k].phys.payload else []
  }

  /** The payloads of items `a` up to `b`, joined. */
  ghost function Joined(items: seq<Item>, a: nat, b: nat): Bytes {
    if b <= a then [] else Joined(items, a, b - 1) + PayloadAt(items, b - 1)
  }

  lemma JoinedOne(items: seq<Item>, k: nat)
    ensures Joined(items, k, k + 1) == PayloadAt(items, k)
  {
    assert Joined(items, k, k) == [];
    assert [] + PayloadAt(items, k) == PayloadAt(items, k);
  }

  ghost function Texts(items: seq<Item>, fs: seq<Range>): seq<Bytes> {
    seq(|fs|, n requires 0 <= n < |fs| => Joined(items, fs[n].begin, fs[n].end))
  }

  lemma TextsFirst(items: seq<Item>, fs: seq<Range>)
    requires fs != []
    ensures Texts(items, fs) == [Joined(items, fs[0].begin, fs[0].end)] + Texts(items, fs[1..])
  {
  }

  ghost function Scratch(items: seq<Item>, k: nat, open: Option<nat>): Option<Bytes> {
    if open.None? then None else Some(Joined(items, open.value, k))
  }

  /** Where ReadRecord stands when `k` items are behind it. */
  ghost predicate Standing(c: Checksum, i: Input, items: seq<Item>, k: nat) {
    k <= |items| && Scan(c, i) == items[k..]
  }

  lemma StandingNext(c: Checksum, i: Input, items: seq<Item>, k: nat)
    requires Standing(c, i, items, k)
    ensures var p := ReadPhysical(c, i);
            if k == |items| then p.phys.Eof?
            else items[k] == Item(p.phys, p.drops, Size(p.input)) && !p.phys.Eof? && Standing(c, p.input, items, k + 1)
  {
    if k < |items| {
      assert items[k..][1..] == items[k + 1..];
    }
  }

  /** What one ReadRecord comes to. */
  ghost predicate ReadsNext(c: Checksum, i: Input, items: seq<Item>, k: nat, open: Option<nat>, drops: seq<nat>)
    requires k <= |items|
  {
    var r, fs := ReadLogical(c, i, Scratch(items, k, open), drops), Frames(items, k, open);
    if fs == [] then r.record == None
    else
      && fs[0].end <= |items| && r.record == Some(Joined(items, fs[0].begin, fs[0].end)) && Standing(c, r.input, items, fs[0].end)
      && fs[1..] == Frames(items, fs[0].end, None)
  }

  lemma {:induction false} ReadLogicalIs(c: Checksum, i: Input, items: seq<Item>, k: nat, open: Option<nat>, drops: seq<nat>)
    requires Standing(c, i, items, k) && OpenOk(items, k, open)
    ensures ReadsNext(c, i, items, k, open, drops)
    decreases |items| - k
  {
    var p := ReadPhysical(c, i);
    StandingNext(c, i, items, k);
    if k < |items| {
      var turn := TakeTurn(p.phys, Scratch(items, k, open), drops + p.drops);
      if Completes(items, k, open) {
        TurnReturns(items, k, open, drops + p.drops);
      } else {
        var next := NextOpen(items, k, open);
        TurnContinues(items, k, open, next, drops + p.drops);
        ReadLogicalIs(c, p.input, items, k + 1, next, turn.drops);
      }
    }
  }

  lemma TurnReturns(items: seq<Item>, k: nat, open: Option<nat>, drops: seq<nat>)
    requires k < |items| && OpenOk(items, k, open)
    requires Completes(items, k, open)
    ensures var turn, fs := TakeTurn(items[k].phys, Scratch(items, k, open), drops), Frames(items, k, open);
            && turn.Return? && fs != [] && fs[0].end == k + 1 && fs[1..] == Frames(items, k + 1, None)
            && turn.record == Some(Joined(items, fs[0].begin, fs[0].end))
  {
    JoinedOne(items, k);
  }

  lemma TurnContinues(items: seq<Item>, k: nat, open: Option<nat>, next: Option<nat>, drops: seq<nat>)
    requires k < |items| && OpenOk(items, k, open) && !items[k].phys.Eof?
    requires !Completes(items, k, open)
    requires next == NextOpen(items, k, open)
    ensures var turn := TakeTurn(items[k].phys, Scratch(items, k, open), drops);
            turn.Continue? && turn.scratch == Scratch(items, k + 1, next) && OpenOk(items, k + 1, next)
    ensures Frames(items, k, open) == Frames(items, k + 1, next)
  {
    JoinedOne(items, k);
  }

  lemma {:induction false} ReadAllIs(c: Checksum, i: Input, items: seq<Item>, k: nat, drops: seq<nat>)
    requires Standing(c, i, items, k)
    ensures ReadAll(c, i, drops).0 == Texts(items, Frames(items, k, None))
    decreases Size(i)
  {
    var r, fs := ReadLogical(c, i, None, drops), Frames(items, k, None);
    ReadLogicalIs(c, i, items, k, None, drops);
    if fs != [] {
      ReadAllIs(c, r.input, items, fs[0].end, r.drops);
      TextsFirst(items, fs);
    }
  }

  /** Whatever the file: the records returned are, in order, exactly those whose fragments all stand
      in it, one after the other and byte for byte as the writer lays them out. */
  lemma ReadsExactlyTheIntact(c: Checksum, file: Bytes)
    ensures var items := Scan(c, Input([], file, false));
            var fs := Frames(items, 0, None);
            && ReadAll(c, Input([], file, false), []).0 == Texts(items, fs)
            && (forall r: Range :: r in fs <==> Framed(items, r.begin, r.end))
            && (forall m, n :: 0 <= m < n < |fs| ==> fs[m].end <= fs[n].begin)
            && (forall k :: 0 <= k < |items| ==> ItemOk(c, file, items[k]))
            && (forall j, k :: 0 <= j < k < |items| ==> items[k].left < items[j].left)
  {
    var i := Input([], file, false);
    var items := Scan(c, i);
    assert Stream(i) == file && Suffix(Stream(i), file);
    ScanInFile(c, i, file);
    assert items[0..] == items;
    ReadAllIs(c, i, items, 0, []);
    FramesAscend(items, 0, None);
    forall r: Range
      ensures r in Frames(items, 0, None) <==> Framed(items, r.begin, r.end)
    {
      FramesAreFramed(items, 0, None, r);
    }
  }

  // Reports

  /** All sizes reported from item `k` on, after `drops`. */
  ghost function Reported(items: seq<Item>, k: nat, open: Option<nat>, drops: seq<nat>): seq<nat>
    requires k <= |items|
    decreases |items| - k
  {
    if k == |items| then drops
    else
      Reported(items, k + 1, NextOpen(items, k, open), TakeTurn(items[k].phys, Scratch(items, k, open), drops + items[k].drops).drops)
  }

  lemma {:induction false} ReadLogicalReports(c: Checksum, i: Input, items: seq<Item>, k: nat, open: Option<nat>, drops: seq<nat>)
    requires Standing(c, i, items, k) && OpenOk(items, k, open)
    ensures var r, fs := ReadLogical(c, i, Scratch(items, k, open), drops), Frames(items, k, open);
            if fs == [] then r.drops == Reported(items, k, open, drops)
            else fs[0].end <= |items| && Reported(items, fs[0].end, None, r.drops) == Reported(items, k, open, drops)
    decreases |items| - k
  {
    var p := ReadPhysical(c, i);
    StandingNext(c, i, items, k);
    if k < |items| {
      var turn := TakeTurn(p.phys, Scratch(items, k, open), drops + p.drops);
      if Completes(items, k, open) {
        TurnReturns(items, k, open, drops + p.drops);
      } else {
        TurnContinues(items, k, open, NextOpen(items, k, open), drops + p.drops);
        ReadLogicalReports(c, p.input, items, k + 1, NextOpen(items, k, open), turn.drops);
      }
    } else {
      EofReportsNothing(c, i);
      assert drops + [] == drops;
    }
  }

  lemma {:induction false} EofReportsNothing(c: Checksum, i: Input)
    ensures ReadPhysical(c, i).phys.Eof? ==> ReadPhysical(c, i).drops == []
    decreases if i.eof then 0 else 1, |i.rest|
  {
    if |i.buffer| < HEADER_SIZE && !i.eof {
      EofReportsNothing(c, ReadBlock(i));
    }
  }

  lemma {:induction false} ReadAllReports(c: Checksum, i: Input, items: seq<Item>, k: nat, drops: seq<nat>)
    requires Standing(c, i, items, k)
    ensures ReadAll(c, i, drops).1 == Reported(items, k, None, drops)
    decreases Size(i)
  {
    var r, fs := ReadLogical(c, i, None, drops), Frames(items, k, None);
    ReadLogicalIs(c, i, items, k, None, drops);
    ReadLogicalReports(c, i, items, k, None, drops);
    if fs != [] {
      ReadAllReports(c, r.input, items, fs[0].end, r.drops);
    }
  }

  lemma {:induction false} NothingIsRetracted(items: seq<Item>, k: nat, open: Option<nat>, drops: seq<nat>)
    requires k <= |items|
    ensures |drops| <= |Reported(items, k, open, drops)|
    decreases |items| - k
  {
    if k < |items| {
      NothingIsRetracted(items, k + 1, NextOpen(items, k, open), TakeTurn(items[k].phys, Scratch(items, k, open), drops + items[k].drops).drops);
    }
  }

  lemma {:induction false} JoinedEmpty(items: seq<Item>, a: nat, b: nat)
    requires Joined(items, a, b) == []
    ensures forall j: nat :: a <= j < b ==> PayloadAt(items, j) == []
    decreases b
  {
    if a < b {
      JoinedEmpty(items, a, b - 1);
    }
  }

  /** Item `j` is part of a record returned, or of one unfinished at the end of the file. */
  ghost predicate Covered(items: seq<Item>, j: nat) {
    exists r: Range :: r.begin <= j < r.end && (Framed(items, r.begin, r.end) || (r.end == |items| && Begun(items, r.begin, r.end)))
  }

  /** From `k` on and in the unfinished record before it, what is not covered is empty or filler. */
  ghost predicate AllCovered(items: seq<Item>, k: nat, open: Option<nat>)
    requires k <= |items|
  {
    && (forall j: nat :: (k <= j || (open.Some? && open.value <= j)) && j < |items| && PayloadAt(items, j) != [] ==> Covered(items, j))
    && (forall j :: k <= j < |items| ==> items[j].drops == [])
  }

  lemma {:induction false} SilentFrom(items: seq<Item>, k: nat, open: Option<nat>, drops: seq<nat>)
    requires k <= |items| && OpenOk(items, k, open) && Reported(items, k, open, drops) == []
    requires forall j :: k <= j < |items| ==> !items[j].phys.Eof?
    ensures AllCovered(items, k, open)
    decreases |items| - k
  {
    if k == |items| {
      SilentEnd(items, open);
    } else {
      SilentStep(items, k, open, drops);
      SilentFrom(items, k + 1, NextOpen(items, k, open), []);
      SilentItem(items, k, open, drops);
    }
  }

  lemma SilentStep(items: seq<Item>, k: nat, open: Option<nat>, drops: seq<nat>)
    requires k < |items| && OpenOk(items, k, open) && Reported(items, k, open, drops) == []
    ensures TakeTurn(items[k].phys, Scratch(items, k, open), drops + items[k].drops).drops == []
    ensures Reported(items, k + 1, NextOpen(items, k, open), []) == [] && OpenOk(items, k + 1, NextOpen(items, k, open))
  {
    NothingIsRetracted(items, k + 1, NextOpen(items, k, open), TakeTurn(items[k].phys, Scratch(items, k, open), drops + items[k].drops).drops);
  }

  lemma SilentEnd(items: seq<Item>, open: Option<nat>)
    requires OpenOk(items, |items|, open)
    ensures AllCovered(items, |items|, open)
  {
    if open.Some? {
      ByRange(items, Range(open.value, |items|));
    }
  }

  /** An item that reports nothing is filler, or continues a record, or ends or begins one; what it
      gives up is empty. */
  lemma SilentItem(items: seq<Item>, k: nat, open: Option<nat>, drops: seq<nat>)
    requires k < |items| && OpenOk(items, k, open) && !items[k].phys.Eof? && AllCovered(items, k + 1, NextOpen(items, k, open))
    requires TakeTurn(items[k].phys, Scratch(items, k, open), drops + items[k].drops).drops == []
    ensures AllCovered(items, k, open)
  {
    forall j: nat | (k <= j || (open.Some? && open.value <= j)) && j < |items| && PayloadAt(items, j) != []
      ensures Covered(items, j)
    {
      if j <= k && KindAt(items, k, LAST) {
        ByRange(items, Range(open.value, k + 1));
      } else if j == k && KindAt(items, k, FULL) {
        ByRange(items, Range(k, k + 1));
      } else if j < k && !KindAt(items, k, MIDDLE) {
        JoinedEmpty(items, open.value, k);
      }
    }
  }

  lemma ByRange(items: seq<Item>, r: Range)
    requires Framed(items, r.begin, r.end) || (r.end == |items| && Begun(items, r.begin, r.end))
    ensures forall j: nat :: r.begin <= j < r.end ==> Covered(items, j)
  {
  }

  /** Nothing is lost in silence: if a whole file is read without a report, then nothing in it was bad
      but filler, and every fragment that is not empty is part of a record returned, or of one that
      the end of the file cuts short. */
  lemma SilenceMeansComplete(c: Checksum, file: Bytes)
    requires ReadAll(c, Input([], file, false), []).1 == []
    ensures AllCovered(Scan(c, Input([], file, false)), 0, None)
  {
    var i := Input([], file, false);
    var items := Scan(c, i);
    assert items[0..] == items;
    assert Stream(i) == file && Suffix(Stream(i), file);
    ScanInFile(c, i, file);
    ReadAllReports(c, i, items, 0, []);
    SilentFrom(items, 0, None, []);
  }

  /** A damaged payload that the checksum tells from the one written: the record and all that follows
      it in its block are dropped, and reported. */
  lemma DamagedPayloadIsDropped(c: Checksum, kind: Byte, written: Bytes, damaged: Bytes, tail: Bytes)
    requires |written| == |damaged| && 0 < HEADER_SIZE + |damaged| + |tail| < BLOCK_SIZE && !(kind == 0 && written == [])
    requires Value(c, [kind] + written) != Value(c, [kind] + damaged)
    ensures var file := Physical(c, kind, written)[..HEADER_SIZE] + damaged + tail;
            ReadAll(c, Input([], file, false), []) == ([], [|file|])
  {
    var file := Physical(c, kind, written)[..HEADER_SIZE] + damaged + tail;
    var i, b := Input([], file, false), Input(file, [], true);
    assert ReadBlock(i) == b by {
      assert file[..|file|] == file && file[|file|..] == [];
    }
    DamagedHeader(c, kind, written, damaged, tail);
    var after := Input([], [], true);
    assert ReadPhysical(c, i) == ReadPhysical(c, b) == PhysResult(Bad, after, [|file|]);
    assert ReadPhysical(c, after) == PhysResult(Eof, after, []);
    assert [] + [|file|] == [|file|] && [|file|] + [] == [|file|];
    assert ReadLogical(c, i, None, []) == ReadLogical(c, after, None, [|file|]) == LogicalResult(None, after, [|file|]);
  }

  lemma DamagedHeader(c: Checksum, kind: Byte, written: Bytes, damaged: Bytes, tail: Bytes)
    requires |written| == |damaged| && HEADER_SIZE + |damaged| + |tail| < BLOCK_SIZE && !(kind == 0 && written == [])
    requires Value(c, [kind] + written) != Value(c, [kind] + damaged)
    ensures var file := Physical(c, kind, written)[..HEADER_SIZE] + damaged + tail;
            ParsePhysical(c, Input(file, [], true)) == PhysResult(Bad, Input([], [], true), [|file|])
  {
    var p := Physical(c, kind, written);
    var file := p[..HEADER_SIZE] + damaged + tail;
    assert p[4] == |written| % 256 && p[5] == |written| / 256 && p[6] == kind;
    assert forall k :: 0 <= k < HEADER_SIZE ==> file[k] == p[k];
    assert Length(file) == |damaged|;
    assert file[6..7 + |damaged|] == [kind] + damaged;
    var crc := Mask(Value(c, [kind] + written));
    assert file == Fixed32(crc) + file[4..];
    Fixed32RoundTrip(crc, file[4..]);
    UnmaskMask(Value(c, [kind] + written));
  }

  /** Recovery's loop over a file of any bytes. */
  method ReadFile(c: Checksum, file: Bytes) returns (records: seq<Bytes>, drops: seq<nat>)
    ensures var items := Scan(c, Input([], file, false));
            && records == Texts(items, Frames(items, 0, None))
            && (forall r: Range :: r in Frames(items, 0, None) <==> Framed(items, r.begin, r.end))
            && (forall k :: 0 <= k < |items| ==> ItemOk(c, file, items[k]))
            && (drops == [] ==> AllCovered(items, 0, None))
  {
    var r := new Reader(c, file);
    records := ReadWhole(r);
    drops := r.drops;
    ReadsExactlyTheIntact(c, file);
    if drops == [] {
      SilenceMeansComplete(c, file);
    }
  }
}
