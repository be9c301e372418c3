/** What a compaction does to lookups: the search goes level by level and stops at the first
    hit, so both what the drop rule uncovers and what is left behind in the upper level count. */
module CompactionLookup {
  import opened Keys
  import opened Reads
  import opened Lsm
  import opened Searching
  import opened DropRule
  import opened CompactionMeaning
  import opened Engine
  import opened EngineProofs
  import Lookup

  ghost predicate LookupIsExact(levels: seq<set<File>>) {
    forall u, s, e :: FirstHit(LevelEntries(levels), u, s, e) ==> Newest(AllContents(levels), u, s, e)
  }

  /** Nothing left behind in the upper level is older than an output of the same key. */
  ghost predicate LeftBehindIsNewer(behind: set<File>, outs: set<File>) {
    forall g, o :: g in behind && o in outs ==> FileNewer(g, o)
  }

  /** Whatever a compaction keeps of its inputs, level-by-level lookups find the newest entry
      afterwards exactly when no file left in the upper level has an older entry of an output's
      key.  Input selection does not check it. */
  lemma CompactionIsExactIff(levels: seq<set<File>>, level: nat, in0: set<File>, in1: set<File>, outs: set<File>)
    requires WellOrdered(levels) && Unique(AllContents(levels)) && level + 1 < |levels|
    requires in0 <= levels[level] && in1 <= levels[level + 1] && Contents(outs) <= Contents(in0 + in1)
    ensures LookupIsExact(Relocate(levels, level, in0, in1, outs)) <==> LeftBehindIsNewer(levels[level] - in0, outs)
  {
    var after := Relocate(levels, level, in0, in1, outs);
    if LeftBehindIsNewer(levels[level] - in0, outs) {
      RelocateKeepsRecency(levels, level, in0, in1, outs);
      forall u, s, e | FirstHit(LevelEntries(after), u, s, e)
        ensures Newest(AllContents(after), u, s, e)
      {
        Lookup.FirstHitIsNewest(after, u, s, e);
      }
    } else {
      var g, o :| g in levels[level] - in0 && o in outs && !FileNewer(g, o);
      OlderLeftBehindMisleads(levels, level, in0, in1, outs, g, o);
    }
  }

  /** The input file an output entry comes from. */
  lemma OutputEntry(in0: set<File>, in1: set<File>, outs: set<File>, o: File, x: Entry) returns (f: File)
    requires Contents(outs) <= Contents(in0 + in1) && o in outs && x in o.entries
    ensures f in in0 + in1 && x in f.entries
  {
    assert x in Contents(outs);
    assert x in Contents(in0 + in1);
    f :| f in in0 + in1 && x in f.entries;
  }

  lemma OutputIsAsOld(levels: seq<set<File>>, level: nat, in0: set<File>, in1: set<File>, outs: set<File>, o: File, i: nat, g: File)
    requires RecentFirst(levels) && level + 1 < |levels| && in0 <= levels[level] && in1 <= levels[level + 1]
    requires Contents(outs) <= Contents(in0 + in1) && o in outs && i < |levels| && g in levels[i]
    ensures i < level ==> FileNewer(g, o)
    ensures i > level + 1 ==> FileNewer(o, g)
  {
    forall x, y | x in o.entries && y in g.entries && x.user == y.user
      ensures i < level ==> y.sequence > x.sequence
      ensures i > level + 1 ==> x.sequence > y.sequence
    {
      var f := OutputEntry(in0, in1, outs, o, x);
      if i < level {
        assert FileNewer(g, f);
      } else if i > level + 1 {
        assert FileNewer(f, g);
      }
    }
  }

  lemma RelocateKeepsRecency(levels: seq<set<File>>, level: nat, in0: set<File>, in1: set<File>, outs: set<File>)
    requires RecentFirst(levels) && level + 1 < |levels| && in0 <= levels[level] && in1 <= levels[level + 1]
    requires Contents(outs) <= Contents(in0 + in1) && LeftBehindIsNewer(levels[level] - in0, outs)
    ensures RecentFirst(Relocate(levels, level, in0, in1, outs))
  {
    var after := Relocate(levels, level, in0, in1, outs);
    forall i, j, g, h | 0 <= i < j < |after| && g in after[i] && h in after[j]
      ensures FileNewer(g, h)
    {
      if g in levels[i] && h in levels[j] {
      } else if g !in levels[i] {
        OutputIsAsOld(levels, level, in0, in1, outs, g, j, h);
      } else if i < level {
        OutputIsAsOld(levels, level, in0, in1, outs, h, i, g);
      } else {
        assert g in levels[level] - in0 && h in outs;
      }
    }
  }

  lemma OlderLeftBehindMisleads(levels: seq<set<File>>, level: nat, in0: set<File>, in1: set<File>, outs: set<File>, g: File, o: File)
    requires WellOrdered(levels) && Unique(AllContents(levels)) && level + 1 < |levels|
    requires in0 <= levels[level] && in1 <= levels[level + 1] && Contents(outs) <= Contents(in0 + in1)
    requires g in levels[level] - in0 && o in outs && !FileNewer(g, o)
    ensures !LookupIsExact(Relocate(levels, level, in0, in1, outs))
  {
    var after := Relocate(levels, level, in0, in1, outs);
    var y, x :| y in g.entries && x in o.entries && y.user == x.user && y.sequence <= x.sequence;
    var f := OutputEntry(in0, in1, outs, o, x);
    assert f in in1 ==> FileNewer(g, f);
    NothingAbove(levels, level, f, x);
    assert y in Contents(levels[level] - in0);
    var e := HitBehind(after, level, y, x);
    var h :| h in levels[level] - in0 && e in h.entries;
    EntryBehindDiffers(levels, level, f, h, x, e);
    assert o in after[level + 1];
    assert x in AllContents(after) && Visible(x, x.user, x.sequence);
  }

  /** A search at the sequence number of `x` stops in the layer of an older entry `y`. */
  lemma HitBehind(after: seq<set<File>>, level: nat, y: Entry, x: Entry) returns (e: Entry)
    requires level < |after| && y in Contents(after[level]) && y.user == x.user && y.sequence <= x.sequence
    requires forall k :: 0 <= k < level ==> NoneVisible(Contents(after[k]), x.user, x.sequence)
    ensures Newest(Contents(after[level]), x.user, x.sequence, e)
    ensures FirstHit(LevelEntries(after), x.user, x.sequence, e)
  {
    assert Visible(y, x.user, x.sequence);
    NewestExists(Contents(after[level]), x.user, x.sequence);
    e :| Newest(Contents(after[level]), x.user, x.sequence, e);
    assert HitAt(LevelEntries(after), x.user, x.sequence, e, level);
  }

  lemma EntryBehindDiffers(levels: seq<set<File>>, level: nat, f: File, h: File, x: Entry, e: Entry)
    requires WellOrdered(levels) && Unique(AllContents(levels)) && level < |levels|
    requires f in levels[level] && h in levels[level] && f != h && x in f.entries && e in h.entries
    ensures x.sequence != e.sequence
  {
    if e == x {
      InputsAreElsewhereAbsent(levels, level, level, f, h, x);
    }
    assert e in AllContents(levels) && x in AllContents(levels);
  }

  lemma NothingAbove(levels: seq<set<File>>, level: nat, f: File, x: Entry)
    requires RecentFirst(levels) && level < |levels| && f in levels[level] && x in f.entries
    ensures forall k :: 0 <= k < level ==> NoneVisible(Contents(levels[k]), x.user, x.sequence)
  {
    forall k, z | 0 <= k < level && z in Contents(levels[k])
      ensures !Visible(z, x.user, x.sequence)
    {
      var h :| h in levels[k] && z in h.entries;
      assert FileNewer(h, f);
    }
  }

  // What lookups answer

  /** An entry that a snapshot in use reads was compacted past an older one with another answer:
      `e` is the newest older entry of its key left behind in the upper level. */
  ghost predicate Misled(all: set<Entry>, behind: set<Entry>, inputs: set<Entry>, snapshot: nat, u: UserKey) {
    exists t, e ::
      && t in inputs && t.user == u && !Hidden(all, snapshot, t)
      && Newest(behind, u, t.sequence, e) && Outcome(t) != Outcome(e)
  }

  /** A compaction's surroundings: the memtables and the levels it finds, and what it takes. */
  datatype Scene = Scene(mem: set<Entry>, imm: set<Entry>, levels: seq<set<File>>, level: nat, in0: set<File>, in1: set<File>) {
    function Inputs(): set<Entry> { Contents(in0 + in1) }
    function All(): set<Entry> { mem + imm + AllContents(levels) }
    function Rest(): set<Entry> { All() - Inputs() }

    ghost predicate Valid() {
      && WellOrdered(levels) && level + 1 < |levels| && in0 <= levels[level] && in1 <= levels[level + 1]
      && NewerThan(mem, imm) && NewerThan(mem, AllContents(levels)) && NewerThan(imm, AllContents(levels))
      && Unique(All())
    }

    function LayersBefore(): seq<set<Entry>> { Layers(mem, imm, levels) }

    function LayersAfter(outs: set<File>): seq<set<Entry>>
      requires level + 1 < |levels|
    {
      Layers(mem, imm, Relocate(levels, level, in0, in1, outs))
    }

    function Behind(): set<Entry>
      requires level < |levels|
    {
      Contents(levels[level] - in0)
    }
  }

  /** Lookups answer as before, for every key and every snapshot in use, exactly when no key is
      exposed and no key is misled. */
  lemma CompactionKeepsLookupsIff(c: Scene, base: seq<set<File>>, snapshot: nat, outs: set<File>)
    requires c.Valid() && Contents(outs) == Kept(c.Inputs(), base, c.level, snapshot)
    ensures SameLookups(c, snapshot, outs)
       <==> (forall u :: !Exposed(c.Rest(), c.Inputs(), base, c.level, snapshot, u)
                      && !Misled(c.All(), c.Behind(), c.Inputs(), snapshot, u))
  {
    if u :| Exposed(c.Rest(), c.Inputs(), base, c.level, snapshot, u) {
      ExposedLookupChanges(c, base, snapshot, outs, u);
    } else if u :| Misled(c.All(), c.Behind(), c.Inputs(), snapshot, u) {
      var s := MisledLookupChanges(c, base, snapshot, outs, u);
    } else {
      forall u, s: nat | s >= snapshot
        ensures Search(c.LayersAfter(outs), u, s) == Search(c.LayersBefore(), u, s)
      {
        LookupUnchanged(c, base, snapshot, outs, u, s);
      }
    }
  }

  ghost predicate SameLookups(c: Scene, snapshot: nat, outs: set<File>)
    requires c.level + 1 < |c.levels|
  {
    forall u, s: nat :: s >= snapshot ==> Search(c.LayersAfter(outs), u, s) == Search(c.LayersBefore(), u, s)
  }

  /** Before the compaction a lookup reads everything. */
  lemma LookupBefore(c: Scene, u: UserKey, s: nat)
    requires c.Valid()
    ensures Search(c.LayersBefore(), u, s) == Read(c.All(), u, s)
    ensures InAgeOrder(c.LayersBefore())
  {
    LayersInAgeOrder(c.mem, c.imm, c.levels);
    UnionOfLayers(c.mem, c.imm, c.levels);
    SearchIsRead(c.LayersBefore(), u, s);
  }

  function Upper(c: Scene): seq<set<Entry>>
    requires c.level < |c.levels|
  {
    c.LayersBefore()[..c.level + 2]
  }

  /** The layers below the upper level, after the compaction. */
  function Lower(c: Scene, outs: set<File>): seq<set<Entry>>
    requires c.level + 1 < |c.levels|
  {
    c.LayersAfter(outs)[c.level + 3..]
  }

  lemma AfterInParts(c: Scene, outs: set<File>)
    requires c.level + 1 < |c.levels|
    ensures c.LayersAfter(outs)[..c.level + 2] == Upper(c)
    ensures c.LayersAfter(outs)[c.level + 2..] == [c.Behind()] + Lower(c, outs)
  {
  }

  /** Where the lookup stops after the compaction: above, in what is left behind, or below. */
  lemma LookupAfter(c: Scene, outs: set<File>, u: UserKey, s: nat)
    requires c.level + 1 < |c.levels|
    ensures Search(c.LayersAfter(outs), u, s)
         == if !NoneVisible(Union(Upper(c)), u, s) then Search(Upper(c), u, s)
            else if !NoneVisible(c.Behind(), u, s) then Read(c.Behind(), u, s)
            else Search(Lower(c, outs), u, s)
  {
    AfterInParts(c, outs);
    SearchFrom(c.LayersAfter(outs), c.level + 2, u, s);
    assert ([c.Behind()] + Lower(c, outs))[1..] == Lower(c, outs);
  }

  /** Everything above the inputs is newer than they are. */
  lemma UpperIsNewer(c: Scene)
    requires c.Valid()
    ensures NewerThan(Union(Upper(c)), c.Inputs())
  {
    var layers := c.LayersBefore();
    LayersInAgeOrder(c.mem, c.imm, c.levels);
    InputsInLayers(c);
    forall x, y | x in Union(Upper(c)) && y in c.Inputs() && x.user == y.user
      ensures x.sequence > y.sequence
    {
      var i: nat :| i < c.level + 2 && x in Upper(c)[i];
      assert NewerThan(layers[i], layers[c.level + 2]) && NewerThan(layers[i], layers[c.level + 3]);
    }
  }

  lemma InputsInLayers(c: Scene)
    requires c.Valid()
    ensures forall y :: y in c.Inputs() ==> y in c.LayersBefore()[c.level + 2] || y in c.LayersBefore()[c.level + 3]
  {
    var layers := c.LayersBefore();
    assert layers[c.level + 2] == Contents(c.levels[c.level]) && layers[c.level + 3] == Contents(c.levels[c.level + 1]);
    forall y | y in c.Inputs()
      ensures y in Contents(c.levels[c.level]) || y in Contents(c.levels[c.level + 1])
    {
      var f :| f in c.in0 + c.in1 && y in f.entries;
    }
  }

  lemma UpperHolds(c: Scene)
    requires c.level < |c.levels|
    ensures c.mem + c.imm <= Union(Upper(c))
    ensures forall i :: 0 <= i < c.level ==> Contents(c.levels[i]) <= Union(Upper(c))
  {
    var upper := Upper(c);
    assert upper[0] == c.mem && upper[1] == c.imm;
    forall i | 0 <= i < c.level
      ensures Contents(c.levels[i]) <= Union(upper)
    {
      assert upper[i + 2] == Contents(c.levels[i]);
    }
  }

  /** What is left behind is newer than anything below that is no input. */
  lemma BehindIsNewer(c: Scene, x: Entry, y: Entry)
    requires c.Valid() && x in c.Behind() && x.user == y.user
    requires y in c.Rest() && y !in Union(Upper(c)) && y !in c.Behind()
    ensures x.sequence > y.sequence
  {
    UpperHolds(c);
    var i: nat, g: File :| i < |c.levels| && g in c.levels[i] && y in g.entries;
    var f :| f in c.levels[c.level] - c.in0 && x in f.entries;
    assert y in Contents(c.levels[i]);
    assert i == c.level ==> g !in c.in0;
    assert i > c.level ==> FileNewer(f, g);
  }

  lemma LowerInAgeOrder(c: Scene, outs: set<File>)
    requires c.Valid() && Contents(outs) <= c.Inputs()
    ensures InAgeOrder(Lower(c, outs))
  {
    var lower := Lower(c, outs);
    forall i, j | 0 <= i < j < |lower|
      ensures NewerThan(lower[i], lower[j])
    {
      LowerLayerIsNewer(c, outs, c.level + 1 + i, c.level + 1 + j);
      assert lower[i] == Contents(Relocate(c.levels, c.level, c.in0, c.in1, outs)[c.level + 1 + i]);
    }
  }

  lemma LowerLayerIsNewer(c: Scene, outs: set<File>, k: nat, l: nat)
    requires c.Valid() && Contents(outs) <= c.Inputs() && c.level < k < l < |c.levels|
    ensures NewerThan(Contents(Relocate(c.levels, c.level, c.in0, c.in1, outs)[k]), Contents(c.levels[l]))
  {
    var after := Relocate(c.levels, c.level, c.in0, c.in1, outs);
    forall x, y | x in Contents(after[k]) && y in Contents(c.levels[l]) && x.user == y.user
      ensures x.sequence > y.sequence
    {
      var f: File :| f in after[k] && x in f.entries;
      var g :| g in c.levels[l] && y in g.entries;
      LowerFileIsNewer(c, outs, k, f, l, g);
    }
  }

  lemma LowerFileIsNewer(c: Scene, outs: set<File>, k: nat, f: File, l: nat, g: File)
    requires c.Valid() && Contents(outs) <= c.Inputs() && c.level < k < l < |c.levels|
    requires f in Relocate(c.levels, c.level, c.in0, c.in1, outs)[k] && g in c.levels[l]
    ensures FileNewer(f, g)
  {
    if f !in c.levels[k] {
      OutputIsAsOld(c.levels, c.level, c.in0, c.in1, outs, f, l, g);
    }
  }

  lemma EntriesAfter(c: Scene, outs: set<File>)
    requires c.Valid()
    ensures Union(c.LayersAfter(outs)) == c.Rest() + Contents(outs)
    ensures Union(c.LayersAfter(outs)) == Union(Lower(c, outs)) + (Union(Upper(c)) + c.Behind())
  {
    UnionOfLayers(c.mem, c.imm, Relocate(c.levels, c.level, c.in0, c.in1, outs));
    ContentsAfterRelocate(c.levels, c.level, c.in0, c.in1, outs);
    MemoryIsNoInput(c);
    EntriesInParts(c, outs);
  }

  lemma MemoryIsNoInput(c: Scene)
    requires c.Valid()
    ensures c.mem !! AllContents(c.levels) && c.imm !! AllContents(c.levels)
  {
    assert forall e :: e in c.mem && e in AllContents(c.levels) ==> e.sequence > e.sequence;
    assert forall e :: e in c.imm && e in AllContents(c.levels) ==> e.sequence > e.sequence;
  }

  lemma EntriesInParts(c: Scene, outs: set<File>)
    requires c.level + 1 < |c.levels|
    ensures Union(c.LayersAfter(outs)) == Union(Lower(c, outs)) + (Union(Upper(c)) + c.Behind())
  {
    AfterInParts(c, outs);
    UnionSplit(c.LayersAfter(outs), c.level + 2);
    UnionFirst([c.Behind()] + Lower(c, outs));
    assert ([c.Behind()] + Lower(c, outs))[1..] == Lower(c, outs);
  }

  lemma UnionSplit(layers: seq<set<Entry>>, k: nat)
    requires k <= |layers|
    ensures Union(layers) == Union(layers[..k]) + Union(layers[k..])
  {
    forall e | e in Union(layers)
      ensures e in Union(layers[..k]) + Union(layers[k..])
    {
      var i :| 0 <= i < |layers| && e in layers[i];
      assert i < k ==> e in layers[..k][i];
      assert i >= k ==> e in layers[k..][i - k];
    }
  }

  /** A lookup that passes the upper level reads what a union of all layers gives. */
  lemma LookupBelow(c: Scene, outs: set<File>, u: UserKey, s: nat)
    requires c.Valid() && Contents(outs) <= c.Inputs()
    requires NoneVisible(Union(Upper(c)), u, s) && NoneVisible(c.Behind(), u, s)
    ensures Search(c.LayersAfter(outs), u, s) == Read(c.Rest() + Contents(outs), u, s)
  {
    EntriesAfter(c, outs);
    LookupAfter(c, outs, u, s);
    LowerInAgeOrder(c, outs);
    ContentsAfterRelocate(c.levels, c.level, c.in0, c.in1, outs);
    assert c.Rest() + Contents(outs) <= c.All();
    SearchIsRead(Lower(c, outs), u, s);
    SameVisible(Union(Lower(c, outs)), Union(Upper(c)) + c.Behind(), u, s);
  }

  /** What is left behind is part of everything, and no input. */
  lemma BehindIsRest(c: Scene)
    requires c.Valid()
    ensures c.Behind() <= c.Rest() && c.Inputs() <= c.All() && c.Rest() + c.Inputs() == c.All()
    ensures Union(Upper(c)) <= c.Rest()
  {
    EntriesAfter(c, {});
    ContentsAfterRelocate(c.levels, c.level, c.in0, c.in1, {});
  }

  lemma LookupUnchanged(c: Scene, base: seq<set<File>>, snapshot: nat, outs: set<File>, u: UserKey, s: nat)
    requires c.Valid() && Contents(outs) == Kept(c.Inputs(), base, c.level, snapshot) && s >= snapshot
    requires !Exposed(c.Rest(), c.Inputs(), base, c.level, snapshot, u)
    requires !Misled(c.All(), c.Behind(), c.Inputs(), snapshot, u)
    ensures Search(c.LayersAfter(outs), u, s) == Search(c.LayersBefore(), u, s)
  {
    LookupAfter(c, outs, u, s);
    if !NoneVisible(Union(Upper(c)), u, s) {
      SearchFrom(c.LayersBefore(), c.level + 2, u, s);
    } else if !NoneVisible(c.Behind(), u, s) {
      LookupBefore(c, u, s);
      StoppedBehind(c, snapshot, u, s);
    } else {
      PassedUnchanged(c, base, snapshot, outs, u, s);
    }
  }

  lemma PassedUnchanged(c: Scene, base: seq<set<File>>, snapshot: nat, outs: set<File>, u: UserKey, s: nat)
    requires c.Valid() && Contents(outs) == Kept(c.Inputs(), base, c.level, snapshot) && s >= snapshot
    requires !Exposed(c.Rest(), c.Inputs(), base, c.level, snapshot, u)
    requires NoneVisible(Union(Upper(c)), u, s) && NoneVisible(c.Behind(), u, s)
    ensures Search(c.LayersAfter(outs), u, s) == Search(c.LayersBefore(), u, s)
  {
    LookupBefore(c, u, s);
    LookupBelow(c, outs, u, s);
    BehindIsRest(c);
    UnexposedReadUnchanged(c.Rest(), c.Inputs(), base, c.level, snapshot, u, s);
  }

  lemma StoppedBehind(c: Scene, snapshot: nat, u: UserKey, s: nat)
    requires c.Valid() && s >= snapshot && !Misled(c.All(), c.Behind(), c.Inputs(), snapshot, u)
    requires NoneVisible(Union(Upper(c)), u, s) && !NoneVisible(c.Behind(), u, s)
    ensures Read(c.Behind(), u, s) == Read(c.All(), u, s)
  {
    BehindIsRest(c);
    NewestExists(c.Behind(), u, s);
    NewestExists(c.All(), u, s);
    var e :| Newest(c.Behind(), u, s, e);
    assert e in c.All() && Visible(e, u, s);
    var t :| Newest(c.All(), u, s, t);
    ReadIs(c.Behind(), u, s, e);
    ReadIs(c.All(), u, s, t);
    if t in c.Inputs() {
      assert !Hidden(c.All(), snapshot, t);
      assert Newest(c.Behind(), u, t.sequence, e);
    } else if t !in c.Behind() {
      BehindIsNewer(c, e, t);
    }
  }

  lemma MisledLookupChanges(c: Scene, base: seq<set<File>>, snapshot: nat, outs: set<File>, u: UserKey) returns (s: nat)
    requires c.Valid() && Contents(outs) == Kept(c.Inputs(), base, c.level, snapshot)
    requires Misled(c.All(), c.Behind(), c.Inputs(), snapshot, u)
    ensures s >= snapshot && Search(c.LayersAfter(outs), u, s) != Search(c.LayersBefore(), u, s)
  {
    var t, e :|
      && t in c.Inputs() && t.user == u && !Hidden(c.All(), snapshot, t)
      && Newest(c.Behind(), u, t.sequence, e) && Outcome(t) != Outcome(e);
    s := if t.sequence < snapshot then snapshot else t.sequence;
    MisledReads(c, snapshot, t, e, s);
    LookupBefore(c, u, s);
    LookupAfter(c, outs, u, s);
  }

  lemma MisledReads(c: Scene, snapshot: nat, t: Entry, e: Entry, s: nat)
    requires c.Valid() && t in c.Inputs() && !Hidden(c.All(), snapshot, t)
    requires Newest(c.Behind(), t.user, t.sequence, e) && s == if t.sequence < snapshot then snapshot else t.sequence
    ensures NoneVisible(Union(Upper(c)), t.user, s)
    ensures !NoneVisible(c.Behind(), t.user, s)
    ensures Read(c.All(), t.user, s) == Outcome(t) && Read(c.Behind(), t.user, s) == Outcome(e)
  {
    BehindIsRest(c);
    UpperIsNewer(c);
    assert Newest(c.All(), t.user, s, t);
    assert forall x :: x in Union(Upper(c)) && Visible(x, t.user, s) ==> x in c.All();
    assert forall x :: x in c.Behind() && Visible(x, t.user, s) ==> x in c.All() && Visible(x, t.user, t.sequence);
    assert Newest(c.Behind(), t.user, s, e);
    ReadIs(c.All(), t.user, s, t);
    ReadIs(c.Behind(), t.user, s, e);
  }

  lemma ExposedLookupChanges(c: Scene, base: seq<set<File>>, snapshot: nat, outs: set<File>, u: UserKey)
    requires c.Valid() && Contents(outs) == Kept(c.Inputs(), base, c.level, snapshot)
    requires Exposed(c.Rest(), c.Inputs(), base, c.level, snapshot, u)
    ensures Search(c.LayersAfter(outs), u, snapshot) != Search(c.LayersBefore(), u, snapshot)
  {
    BehindIsRest(c);
    LookupBefore(c, u, snapshot);
    LookupAfter(c, outs, u, snapshot);
    ExposedReadChanges(c.Rest(), c.Inputs(), base, c.level, snapshot, u);
    NothingVisibleAbove(c, base, snapshot, u);
    if NoneVisible(c.Behind(), u, snapshot) {
      LookupBelow(c, outs, u, snapshot);
    } else {
      ExposedBehind(c, base, snapshot, u);
    }
  }

  lemma NothingVisibleAbove(c: Scene, base: seq<set<File>>, snapshot: nat, u: UserKey)
    requires c.Valid() && Exposed(c.Rest(), c.Inputs(), base, c.level, snapshot, u)
    ensures NoneVisible(Union(Upper(c)), u, snapshot)
  {
    BehindIsRest(c);
    UpperIsNewer(c);
    var t :| Newest(c.Rest() + c.Inputs(), u, snapshot, t) && t in c.Inputs();
    assert forall x :: x in Union(Upper(c)) && Visible(x, u, snapshot) ==> x in c.Rest() + c.Inputs();
  }

  lemma ExposedBehind(c: Scene, base: seq<set<File>>, snapshot: nat, u: UserKey)
    requires c.Valid() && Exposed(c.Rest(), c.Inputs(), base, c.level, snapshot, u)
    requires NoneVisible(Union(Upper(c)), u, snapshot) && !NoneVisible(c.Behind(), u, snapshot)
    ensures Read(c.Behind(), u, snapshot).Some?
  {
    BehindIsRest(c);
    var p :| Newest(c.Rest(), u, snapshot, p) && p.op.Put?;
    NewestExists(c.Behind(), u, snapshot);
    var e :| Newest(c.Behind(), u, snapshot, e);
    assert e in c.Rest() && Visible(e, u, snapshot);
    if p !in c.Behind() {
      BehindIsNewer(c, e, p);
    }
    ReadIs(c.Behind(), u, snapshot, p);
  }
}
