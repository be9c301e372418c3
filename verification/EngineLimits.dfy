/** Where the source stops short of the hypotheses of the engine theorem, and the exact
    conditions under which it does not. */
module EngineLimits {
  import opened Keys
  import opened Reads
  import opened Lsm
  import opened Searching
  import opened DropRule
  import opened Overlap
  import opened Pick
  import opened Engine
  import opened EngineProofs
  import opened CompactionMeaning
  import opened CompactionLookup

  // Files left behind in the upper level

  /** Moving a file one level down leaves lookups right exactly when no file it leaves behind
      in its level has an older entry of one of its keys. */
  lemma TrivialMoveIsExactIff(levels: seq<set<File>>, level: nat, f: File)
    requires WellOrdered(levels) && Unique(AllContents(levels)) && level + 1 < |levels|
    requires Selected(levels, level, {f}, {})
    ensures LookupIsExact(Relocate(levels, level, {f}, {}, {f})) <==> Closed(levels, level, {f}, {})
  {
    assert {f} + {} == {f};
    CompactionIsExactIff(levels, level, {f}, {}, {f});
    forall h | h in levels[level + 1]
      ensures FileNewer(h, f)
    {
      assert f in {f} && !MeetsHull(h, {f});
      NoOverlap(f, h);
    }
  }

  /** A closed choice misleads no lookup. */
  lemma ClosedMisleadsNone(levels: seq<set<File>>, level: nat, in0: set<File>, in1: set<File>, all: set<Entry>, snapshot: nat, u: UserKey)
    requires level + 1 < |levels| && Closed(levels, level, in0, in1)
    ensures !Misled(all, Contents(levels[level] - in0), Contents(in0 + in1), snapshot, u)
  {
    forall t, e | t in Contents(in0 + in1) && e in Contents(levels[level] - in0) && t.user == e.user
      ensures e.sequence > t.sequence
    {
      var f :| f in in0 + in1 && t in f.entries;
      var g :| g in levels[level] - in0 && e in g.entries;
      assert FileNewer(g, f);
    }
  }

  /** The position of the one-byte key `b`. */
  ghost function At(b: Byte): UserKey { Rank([b]) }

  lemma AtOrder(a: Byte, b: Byte)
    ensures At(a) < At(b) <==> a < b
  {
    RankIsBytewiseOrder([a], [b]);
  }

  ghost function Only(number: nat, entries: seq<Entry>): Table {
    Table(number, 1, entries)
  }

  const NO_LEVELS: seq<set<File>> := seq(NUM_LEVELS, _ => {})

  lemma LevelOneOnly(files: set<File>)
    requires DisjointLevel(files)
    ensures WellOrdered(NO_LEVELS[1 := files])
    ensures AllContents(NO_LEVELS[1 := files]) == Contents(files)
  {
    var levels := NO_LEVELS[1 := files];
    assert levels[1] == files;
    assert forall i :: 0 <= i < NUM_LEVELS && i != 1 ==> levels[i] == {};
  }

  lemma ContentsOfOne(f: File)
    ensures Contents({f}) == EntrySet(f.entries)
  {
  }

  lemma ContentsOfTwo(f: File, g: File)
    ensures Contents({f, g}) == EntrySet(f.entries) + EntrySet(g.entries)
  {
  }

  ghost function Version(sequence: nat, op: Op): Entry { Entry(At(77), sequence, op) }
  ghost function Newer(): File { Only(7, [Version(9, Put([2]))]) }
  ghost function Marker(): File { Only(7, [Version(9, Delete)]) }
  ghost function Older(): File { Only(8, [Version(5, Put([1]))]) }

  /** Two versions of one key straddle two level-1 files, as compactions may leave them.  The
      newer one is chosen alone and moved down; the lookup then finds the stale version. */
  lemma BoundaryFileBreaksLookup()
    ensures var levels := NO_LEVELS[1 := {Newer(), Older()}];
            && WellOrdered(levels) && Unique(AllContents(levels)) && Selected(levels, 1, {Newer()}, {})
            && var after := Relocate(levels, 1, {Newer()}, {}, {Newer()});
            && AllContents(after) == AllContents(levels)
            && FirstHit(LevelEntries(after), At(77), 9, Version(5, Put([1])))
            && Newest(AllContents(after), At(77), 9, Version(9, Put([2])))
  {
    var n, o := Newer().entries[0], Older().entries[0];
    var levels := NO_LEVELS[1 := {Newer(), Older()}];
    var after := Relocate(levels, 1, {Newer()}, {}, {Newer()});
    assert Newer().number != Older().number;
    LevelOneOnly({Newer(), Older()});
    ContentsOfTwo(Newer(), Older());
    ContentsOfOne(Older());
    ContentsOfOne(Newer());
    ContentsAfterRelocate(levels, 1, {Newer()}, {}, {Newer()});
    assert EntrySet(Newer().entries) == {n} && EntrySet(Older().entries) == {o};
    assert {Newer()} + {} == {Newer()} && {Newer(), Older()} - {Newer()} == {Older()};
    assert after[0] == {} && after[1] == {Older()};
    assert HitAt(LevelEntries(after), At(77), 9, o, 1);
  }

  /** The same pair when the newer version is a deletion marker and the range is compacted by
      hand, one file at a time: the marker is dropped and the deleted value comes back. */
  lemma BoundaryFileRevivesDeletedKey()
    ensures var levels := NO_LEVELS[1 := {Marker(), Older()}];
            && WellOrdered(levels) && Unique(AllContents(levels)) && Selected(levels, 1, {Marker()}, {})
            && var after := Relocate(levels, 1, {Marker()}, {}, {});
            && Kept(Contents({Marker()}), levels, 1, 9) == {}
            && Read(AllContents(levels), At(77), 9) == None && Read(AllContents(after), At(77), 9) == Some([1])
  {
    MarkerAndOlder();
    LevelOneOnly({Marker(), Older()});
    LevelOneOnly({Older()});
    MarkerHides(Marker().entries[0], Older().entries[0]);
    MarkerIsDropped();
  }

  lemma MarkerAndOlder()
    ensures Marker() != Older() && Apart(Marker(), Older())
    ensures Contents({Marker(), Older()}) == {Marker().entries[0], Older().entries[0]}
    ensures Contents({Older()}) == {Older().entries[0]}
  {
    assert Marker().number != Older().number;
    ContentsOfTwo(Marker(), Older());
    ContentsOfOne(Older());
    assert EntrySet(Marker().entries) == {Marker().entries[0]} && EntrySet(Older().entries) == {Older().entries[0]};
  }

  lemma MarkerHides(m: Entry, o: Entry)
    requires m == Version(9, Delete) && o == Version(5, Put([1]))
    ensures Read({m, o}, At(77), 9) == None && Read({o}, At(77), 9) == Some([1])
  {
    assert Newest({m, o}, At(77), 9, m) && Newest({o}, At(77), 9, o);
    ReadIs({m, o}, At(77), 9, m);
    ReadIs({o}, At(77), 9, o);
  }

  lemma MarkerIsDropped()
    ensures var levels := NO_LEVELS[1 := {Marker(), Older()}];
            && Kept(Contents({Marker()}), levels, 1, 9) == {}
            && Relocate(levels, 1, {Marker()}, {}, {}) == NO_LEVELS[1 := {Older()}]
  {
    var levels := NO_LEVELS[1 := {Marker(), Older()}];
    assert Marker().number != Older().number;
    assert {Marker(), Older()} - {Marker()} == {Older()};
    assert NoDeeperFile(levels, 1, At(77));
    ContentsOfOne(Marker());
    var after := Relocate(levels, 1, {Marker()}, {}, {});
    assert forall i :: 0 <= i < NUM_LEVELS ==> after[i] == NO_LEVELS[1 := {Older()}][i];
  }

  // A flush into the output level

  /** The output level when the compaction is installed after `f` was flushed into it. */
  function OutputLevel(levels: seq<set<File>>, level: nat, in0: set<File>, in1: set<File>, f: File, outs: seq<File>): set<File>
    requires level + 1 < |levels|
  {
    Relocate(levels[level + 1 := levels[level + 1] + {f}], level, in0, in1, FileSet(outs))[level + 1]
  }

  /** A table that a memtable can be flushed to at `level`. */
  ghost predicate Flushable(levels: seq<set<File>>, level: nat, f: File) {
    ClearTo(levels, level, f) && NewerThan(EntrySet(f.entries), AllContents(levels))
  }

  /** Wherever the outputs are cut and whatever is flushed meanwhile into the output level, its
      files come out disjoint. */
  ghost predicate FlushIsSafe(levels: seq<set<File>>, level: nat, in0: set<File>, in1: set<File>, kept: set<Entry>)
    requires level + 1 < |levels|
  {
    forall f, outs :: level + 1 <= MAX_MEM_COMPACT_LEVEL && Flushable(levels, level + 1, f) && OutputsOf(outs, kept)
      ==> DisjointLevel(OutputLevel(levels, level, in0, in1, f, outs))
  }

  /** No file down to `level` meets [x, y]. */
  ghost predicate FreeRange(levels: seq<set<File>>, level: nat, x: UserKey, y: UserKey) {
    x <= y && forall i, g :: 0 <= i <= level && i < |levels| && g in levels[i] ==> Hi(g) < x || y < Lo(g)
  }

  ghost predicate EntriesBelow(es: set<Entry>, x: UserKey) {
    forall e :: e in es ==> e.user < x
  }

  ghost predicate EntriesAbove(es: set<Entry>, y: UserKey) {
    forall e :: e in es ==> y < e.user
  }

  /** Every key range free down to the output level has all kept entries on one side. */
  ghost predicate KeptOnOneSide(levels: seq<set<File>>, level: nat, kept: set<Entry>) {
    forall x, y :: FreeRange(levels, level + 1, x, y) ==> EntriesBelow(kept, x) || EntriesAbove(kept, y)
  }

  /** Flushing during a compaction is safe exactly when the output level is too deep for a flush
      or the kept entries have no gap a flushed file could fall into. */
  lemma FlushIsSafeIff(levels: seq<set<File>>, level: nat, in0: set<File>, in1: set<File>, kept: set<Entry>)
    requires WellOrdered(levels) && level + 1 < |levels| && Selected(levels, level, in0, in1)
    requires kept <= Contents(in0 + in1) && Unique(kept)
    ensures FlushIsSafe(levels, level, in0, in1, kept)
       <==> level + 1 > MAX_MEM_COMPACT_LEVEL || KeptOnOneSide(levels, level, kept)
  {
    if level + 1 <= MAX_MEM_COMPACT_LEVEL {
      if KeptOnOneSide(levels, level, kept) {
        forall f, outs | Flushable(levels, level + 1, f) && OutputsOf(outs, kept)
          ensures DisjointLevel(OutputLevel(levels, level, in0, in1, f, outs))
        {
          OneSideIsSafe(levels, level, in0, in1, kept, f, outs);
        }
      } else {
        var x, y :| FreeRange(levels, level + 1, x, y) && !EntriesBelow(kept, x) && !EntriesAbove(kept, y);
        GapIsUnsafe(levels, level, in0, in1, kept, x, y);
      }
    }
  }

  lemma OneSideIsSafe(levels: seq<set<File>>, level: nat, in0: set<File>, in1: set<File>, kept: set<Entry>, f: File, outs: seq<File>)
    requires WellOrdered(levels) && level + 1 < |levels| && Selected(levels, level, in0, in1)
    requires kept <= Contents(in0 + in1) && KeptOnOneSide(levels, level, kept)
    requires ClearTo(levels, level + 1, f) && OutputsOf(outs, kept)
    ensures DisjointLevel(OutputLevel(levels, level, in0, in1, f, outs))
  {
    OutputsAreDisjoint(outs);
    forall g | g in levels[level + 1]
      ensures Apart(f, g)
    {
      NoOverlap(f, g);
    }
    OutputsMissOthers(levels, level, in0, in1, FileSet(outs));
    OutputsMissFlushed(levels, level, kept, f, FileSet(outs));
    PairsApart(levels[level + 1], f, in1, FileSet(outs));
  }

  lemma OutputsMissOthers(levels: seq<set<File>>, level: nat, in0: set<File>, in1: set<File>, outs: set<File>)
    requires WellOrdered(levels) && level + 1 < |levels| && Selected(levels, level, in0, in1)
    requires Contents(outs) <= Contents(in0 + in1)
    ensures forall o, g :: o in outs && g in levels[level + 1] - in1 ==> Apart(o, g)
  {
    forall o, g | o in outs && g in levels[level + 1] - in1
      ensures Apart(o, g)
    {
      LeftBehindIsOneSided(levels, level, in0, in1, g);
      OutputIsApart(in0 + in1, outs, o, g);
    }
  }

  lemma OutputsMissFlushed(levels: seq<set<File>>, level: nat, kept: set<Entry>, f: File, outs: set<File>)
    requires KeptOnOneSide(levels, level, kept) && ClearTo(levels, level + 1, f) && Contents(outs) == kept
    ensures forall o :: o in outs ==> Apart(o, f)
  {
    LoHi(f);
    forall i, g | 0 <= i <= level + 1 && i < |levels| && g in levels[i]
      ensures Hi(g) < Lo(f) || Hi(f) < Lo(g)
    {
      assert !Overlaps(f, g);
    }
    assert FreeRange(levels, level + 1, Lo(f), Hi(f));
    assert EntriesBelow(kept, Lo(f)) || EntriesAbove(kept, Hi(f));
    forall o | o in outs
      ensures Apart(o, f)
    {
      assert o.entries[0] in o.entries && o.entries[|o.entries| - 1] in o.entries;
      assert o.entries[0] in Contents(outs) && o.entries[|o.entries| - 1] in Contents(outs);
    }
  }

  lemma PairsApart(files: set<File>, f: File, in1: set<File>, outs: set<File>)
    requires DisjointLevel(files) && DisjointLevel(outs)
    requires forall g :: g in files ==> Apart(f, g)
    requires forall o, g :: o in outs && g in files - in1 ==> Apart(o, g)
    requires forall o :: o in outs ==> Apart(o, f)
    ensures DisjointLevel(files + {f} - in1 + outs)
  {
    forall p, q | p in files + {f} - in1 + outs && q in files + {f} - in1 + outs && p != q
      ensures Apart(p, q)
    {
      if p in outs && q !in outs {
        assert q == f || q in files - in1;
      } else if p !in outs && q in outs {
        assert p == f || p in files - in1;
      }
    }
  }

  /** A file flushed into a gap is covered by an output that spans the gap. */
  lemma GapIsUnsafe(levels: seq<set<File>>, level: nat, in0: set<File>, in1: set<File>, kept: set<Entry>, x: UserKey, y: UserKey)
    requires level + 1 < |levels| && level + 1 <= MAX_MEM_COMPACT_LEVEL && Selected(levels, level, in0, in1)
    requires kept <= Contents(in0 + in1) && Unique(kept)
    requires FreeRange(levels, level + 1, x, y) && !EntriesBelow(kept, x) && !EntriesAbove(kept, y)
    ensures !FlushIsSafe(levels, level, in0, in1, kept)
  {
    var f := FlushedIntoGap(levels, level + 1, x, y);
    var o := SpanningOutput(levels, level, in0, in1, kept, x, y);
    InOutputLevel(levels, level, in0, in1, f, o);
    assert !Apart(f, o);
  }

  lemma InOutputLevel(levels: seq<set<File>>, level: nat, in0: set<File>, in1: set<File>, f: File, o: File)
    requires level + 1 < |levels| && in1 <= levels[level + 1] && f !in levels[level + 1]
    ensures f in OutputLevel(levels, level, in0, in1, f, [o]) && o in OutputLevel(levels, level, in0, in1, f, [o])
  {
    assert FileSet([o]) == {o};
  }

  /** A memtable with one entry, at the lower end of the gap. */
  lemma FlushedIntoGap(levels: seq<set<File>>, level: nat, x: UserKey, y: UserKey) returns (f: File)
    requires level < |levels| && FreeRange(levels, level, x, y)
    ensures Flushable(levels, level, f) && Lo(f) == Hi(f) == x
    ensures f !in levels[level]
  {
    var last := LastSequence(AllContents(levels));
    f := Only(0, [Entry(x, last + 1, Delete)]);
  }

  lemma {:induction false} LastSequence(es: set<Entry>) returns (last: nat)
    ensures forall e :: e in es ==> e.sequence <= last
    decreases es
  {
    if es == {} {
      last := 0;
    } else {
      var e :| e in es;
      var n := LastSequence(es - {e});
      last := if n < e.sequence then e.sequence else n;
    }
  }

  /** One output file with all that is kept reaches from below the gap to above it. */
  lemma SpanningOutput(levels: seq<set<File>>, level: nat, in0: set<File>, in1: set<File>, kept: set<Entry>, x: UserKey, y: UserKey)
    returns (o: File)
    requires level + 1 < |levels| && in0 <= levels[level] && in1 <= levels[level + 1]
    requires kept <= Contents(in0 + in1) && Unique(kept)
    requires FreeRange(levels, level + 1, x, y) && !EntriesBelow(kept, x) && !EntriesAbove(kept, y)
    ensures OutputsOf([o], kept) && Lo(o) < x && y < Hi(o)
  {
    var above :| above in kept && !(above.user < x);
    var below :| below in kept && !(y < below.user);
    OutsideFree(levels, level, in0, in1, x, y, above);
    OutsideFree(levels, level, in0, in1, x, y, below);
    var sorted := SortedList(kept);
    assert above in EntrySet(sorted) && below in EntrySet(sorted);
    o := Only(1, sorted);
    Bounds(o, above);
    Bounds(o, below);
    assert FileSet([o]) == {o};
    ContentsOfOne(o);
  }

  /** Input files miss a free range, so their entries do. */
  lemma OutsideFree(levels: seq<set<File>>, level: nat, in0: set<File>, in1: set<File>, x: UserKey, y: UserKey, e: Entry)
    requires level + 1 < |levels| && in0 <= levels[level] && in1 <= levels[level + 1]
    requires FreeRange(levels, level + 1, x, y) && e in Contents(in0 + in1)
    ensures e.user < x || y < e.user
  {
    var g :| g in in0 + in1 && e in g.entries;
    Bounds(g, e);
    var i := if g in in0 then level else level + 1;
    assert g in levels[i];
    assert Hi(g) < x || y < Lo(g);
  }

  /** Entries with distinct sequence numbers can be put in internal-key order. */
  lemma {:induction false} SortedList(es: set<Entry>) returns (l: seq<Entry>)
    requires Unique(es)
    ensures Sorted(l) && EntrySet(l) == es
    decreases es
  {
    if es == {} {
      l := [];
    } else {
      var e :| e in es;
      var rest := SortedList(es - {e});
      l := Inserted(rest, e);
    }
  }

  lemma {:induction false} Inserted(rest: seq<Entry>, e: Entry) returns (l: seq<Entry>)
    requires Sorted(rest) && Unique(EntrySet(rest) + {e}) && e !in rest
    ensures Sorted(l) && EntrySet(l) == EntrySet(rest) + {e}
  {
    if rest == [] || Before(KeyOf(e), KeyOf(rest[0])) {
      l := [e] + rest;
    } else {
      assert rest[0] in EntrySet(rest) && rest[0].sequence != e.sequence;
      assert EntrySet(rest) == EntrySet(rest[1..]) + {rest[0]};
      var tail := Inserted(rest[1..], e);
      l := [rest[0]] + tail;
      forall k | 0 <= k < |tail|
        ensures Before(KeyOf(rest[0]), KeyOf(tail[k]))
      {
        assert tail[k] in EntrySet(tail);
      }
    }
  }

  /** Inputs without a gap between them are safe: automatic compactions always are. */
  lemma NoGapIsOneSided(levels: seq<set<File>>, level: nat, in0: set<File>, in1: set<File>, kept: set<Entry>)
    requires level + 1 < |levels| && in0 <= levels[level] && in1 <= levels[level + 1]
    requires NoGap(in0 + in1) && kept <= Contents(in0 + in1)
    ensures KeptOnOneSide(levels, level, kept)
  {
    forall x, y | FreeRange(levels, level + 1, x, y)
      ensures EntriesBelow(kept, x) || EntriesAbove(kept, y)
    {
      assert Misses(in0 + in1, x, y);
      forall e | e in kept
        ensures AllBelow(in0 + in1, x) ==> e.user < x
        ensures AllAbove(in0 + in1, y) ==> y < e.user
      {
        var g :| g in in0 + in1 && e in g.entries;
        Bounds(g, e);
      }
    }
  }

  ghost function Left(): File { Only(7, [Entry(At(65), 5, Put([1]))]) }
  ghost function Right(): File { Only(8, [Entry(At(90), 6, Put([2]))]) }

  /** A range compacted by hand may have a gap between its files, and then is not safe. */
  lemma ManualGapIsUnsafe()
    ensures var files, levels := {Left(), Right()}, NO_LEVELS[1 := {Left(), Right()}];
            && WellOrdered(levels) && Selected(levels, 1, files, {}) && Closed(levels, 1, files, {})
            && Kept(Contents(files), levels, 1, 6) == Contents(files)
            && !FlushIsSafe(levels, 1, files, {}, Contents(files))
  {
    var files: set<File> := {Left(), Right()};
    var levels := NO_LEVELS[1 := files];
    LeftAndRight();
    LevelOneOnly(files);
    assert files + {} == files;
    NothingHidden(files, levels);
    GapIsUnsafe(levels, 1, files, {}, Contents(files), At(77), At(77));
  }

  lemma NothingHidden(files: set<File>, levels: seq<set<File>>)
    requires files == {Left(), Right()}
    ensures Kept(Contents(files), levels, 1, 6) == Contents(files) && Unique(Contents(files))
  {
    var l, r := Left().entries[0], Right().entries[0];
    AtOrder(65, 90);
    ContentsOfTwo(Left(), Right());
    assert Contents(files) == {l, r};
  }

  lemma LeftAndRight()
    ensures DisjointLevel({Left(), Right()})
    ensures FreeRange(NO_LEVELS[1 := {Left(), Right()}], 2, At(77), At(77))
    ensures !EntriesBelow(Contents({Left(), Right()}), At(77)) && !EntriesAbove(Contents({Left(), Right()}), At(77))
  {
    var l, r := Left().entries[0], Right().entries[0];
    AtOrder(65, 77);
    AtOrder(77, 90);
    AtOrder(65, 90);
    ContentsOfTwo(Left(), Right());
    assert l in Contents({Left(), Right()}) && r in Contents({Left(), Right()});
  }
}
