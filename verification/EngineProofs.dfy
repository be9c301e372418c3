/** Every step of the engine keeps the invariant, so every reachable state answers lookups
    from the history. */
module EngineProofs {
  import opened Keys
  import opened Reads
  import opened Lsm
  import opened Searching
  import opened DropRule
  import opened CompactionMeaning
  import opened Overlap
  import opened Pick
  import opened Engine

  // Writing

  lemma StampFacts(ops: seq<(UserKey, Op)>, last: nat)
    ensures Unique(Stamp(ops, last + 1))
    ensures forall x :: x in Stamp(ops, last + 1) ==> last < x.sequence <= last + |ops|
  {
  }

  lemma WriteKeepsOrder(s: State, ops: seq<(UserKey, Op)>, t: State)
    requires Ordered(s) && Next(s, Write(ops), t)
    ensures Ordered(t)
  {
    var added := Stamp(ops, s.lastSequence + 1);
    StampFacts(ops, s.lastSequence);
    assert forall e :: e in Immutable(s) || e in AllContents(s.levels) ==> e in Live(s);
    assert Unique(t.history);
    assert NewerThan(t.mem, Immutable(t));
    assert NewerThan(t.mem, AllContents(t.levels));
  }

  lemma WriteKeepsInv(s: State, ops: seq<(UserKey, Op)>, t: State)
    requires Inv(s) && Next(s, Write(ops), t)
    ensures Inv(t)
  {
    var added := Stamp(ops, s.lastSequence + 1);
    StampFacts(ops, s.lastSequence);
    WriteKeepsOrder(s, ops, t);
    assert Live(t) == Live(s) + added;
    forall u, n: nat | n >= t.floor
      ensures Read(Live(t), u, n) == Read(t.history, u, n)
    {
      ReadsExtend(Live(s), s.history, added, u, n);
    }
  }

  lemma SwitchKeepsInv(s: State, t: State)
    requires Inv(s) && Next(s, SwitchMemTable, t)
    ensures Inv(t)
  {
    assert Live(t) == Live(s);
    MemoryMoves(s, t);
  }

  /** Only the memtables change, and what they hold together does not. */
  lemma MemoryMoves(s: State, t: State)
    requires Inv(s) && t == s.(mem := t.mem, imm := t.imm, nextFile := t.nextFile) && s.nextFile <= t.nextFile && Live(t) == Live(s)
    requires NewerThan(t.mem, Immutable(t)) && NewerThan(t.mem, AllContents(t.levels)) && NewerThan(Immutable(t), AllContents(t.levels))
    ensures Inv(t)
  {
    MemoryMovesInOrder(s, t);
    MemoryMovesReads(s, t);
  }

  lemma MemoryMovesInOrder(s: State, t: State)
    requires Ordered(s) && t == s.(mem := t.mem, imm := t.imm, nextFile := t.nextFile) && s.nextFile <= t.nextFile && Live(t) == Live(s)
    requires NewerThan(t.mem, Immutable(t)) && NewerThan(t.mem, AllContents(t.levels)) && NewerThan(Immutable(t), AllContents(t.levels))
    ensures Ordered(t)
  {
  }

  lemma MemoryMovesReads(s: State, t: State)
    requires Agrees(s) && t == s.(mem := t.mem, imm := t.imm, nextFile := t.nextFile) && Live(t) == Live(s)
    ensures Agrees(t)
  {
  }

  lemma SnapshotKeepsInv(s: State, step: Step, t: State)
    requires Inv(s) && Next(s, step, t) && (step.TakeSnapshot? || step.ReleaseSnapshot?)
    ensures Inv(t)
  {
    assert Live(t) == Live(s);
  }

  // Flushing

  lemma ContentsAfterFlush(levels: seq<set<File>>, level: nat, f: File)
    requires level < |levels|
    ensures AllContents(levels[level := levels[level] + {f}]) == AllContents(levels) + EntrySet(f.entries)
  {
    var after := levels[level := levels[level] + {f}];
    forall e | e in AllContents(levels) + EntrySet(f.entries)
      ensures e in AllContents(after)
    {
      if e in AllContents(levels) {
        var i, g :| 0 <= i < |levels| && g in levels[i] && e in g.entries;
        assert g in after[i];
      } else {
        assert f in after[level];
      }
    }
  }

  /** A range that overlaps none of the files shares no user key with them and is apart. */
  lemma NoOverlap(f: File, g: File)
    requires !Overlaps(f, g)
    ensures Apart(f, g) && FileNewer(f, g) && FileNewer(g, f)
    ensures forall x :: x in f.entries ==> !SharesUser(g, x.user)
  {
    forall x, y | x in f.entries && y in g.entries
      ensures x.user != y.user
    {
      Bounds(f, x);
      Bounds(g, y);
    }
  }

  lemma FlushKeepsRecency(levels: seq<set<File>>, level: nat, f: File)
    requires RecentFirst(levels) && level < |levels|
    requires NewerThan(EntrySet(f.entries), AllContents(levels))
    requires level > 0 ==> ClearTo(levels, level, f)
    ensures RecentFirst(levels[level := levels[level] + {f}])
  {
    var after := levels[level := levels[level] + {f}];
    forall i, j, g, h | 0 <= i < j < |after| && g in after[i] && h in after[j]
      ensures FileNewer(g, h)
    {
      if g in levels[i] && h in levels[j] {
      } else if g in levels[i] {
        assert h == f && j == level;
        NoOverlap(f, g);
      } else {
        assert g == f && h in levels[j];
        FlushedIsNewer(levels, f, j, h);
      }
    }
  }

  lemma FlushedIsNewer(levels: seq<set<File>>, f: File, j: nat, h: File)
    requires NewerThan(EntrySet(f.entries), AllContents(levels)) && j < |levels| && h in levels[j]
    ensures FileNewer(f, h)
  {
    forall x, y | x in f.entries && y in h.entries && x.user == y.user
      ensures x.sequence > y.sequence
    {
      assert x in EntrySet(f.entries) && y in AllContents(levels);
    }
  }

  lemma FlushKeepsWellOrdered(s: State, level: nat, f: File, t: State)
    requires Ordered(s) && Next(s, Flush(level, f), t)
    ensures WellOrdered(t.levels)
  {
    FlushKeepsRecency(s.levels, level, f);
    if level == 0 {
      forall g | g in s.levels[0]
        ensures FileNewer(f, g)
      {
        FlushedIsNewer(s.levels, f, 0, g);
      }
      NewestNumber(s.levels[0], f);
    } else {
      forall g | g in s.levels[level]
        ensures Apart(f, g)
      {
        NoOverlap(f, g);
      }
      OneMoreDisjoint(s.levels[level], f);
    }
    assert forall i :: 1 <= i < NUM_LEVELS && i != level ==> t.levels[i] == s.levels[i];
  }

  lemma NewestNumber(files: set<File>, f: File)
    requires NumberedByAge(files) && forall g :: g in files ==> FileNewer(f, g) && g.number < f.number
    ensures NumberedByAge(files + {f})
  {
  }

  lemma OneMoreDisjoint(files: set<File>, f: File)
    requires DisjointLevel(files) && forall g :: g in files ==> Apart(f, g)
    ensures DisjointLevel(files + {f})
  {
  }

  /** A flush that lands during a compaction leaves its choice of inputs sound: it is on one
      side of the connected inputs, and brings no user key of theirs to a deeper level. */
  lemma FlushKeepsJob(s: State, level: nat, f: File, t: State)
    requires Ordered(s) && JobSound(s) && Next(s, Flush(level, f), t)
    ensures JobSound(t)
  {
    if s.job.Some? {
      FlushKeepsInputs(s.levels, level, f, s.job.value);
    }
  }

  lemma FlushKeepsInputs(levels: seq<set<File>>, level: nat, f: File, j: Job)
    requires InputsSound(j, levels) && level < |levels| && (level > 0 ==> ClearTo(levels, level, f))
    requires NewerThan(EntrySet(f.entries), AllContents(levels))
    ensures InputsSound(j, levels[level := levels[level] + {f}])
  {
    var inputs := j.in0 + j.in1;
    forall g | g in inputs
      ensures FileNewer(f, g)
    {
      FlushedIsNewer(levels, f, if g in j.in0 then j.level else j.level + 1, g);
    }
    if level == j.level + 1 {
      FlushedIsOneSided(levels, level, inputs, f);
    }
    FlushKeepsBase(levels, level, f, j, levels[level := levels[level] + {f}]);
  }

  lemma FlushedIsOneSided(levels: seq<set<File>>, level: nat, inputs: set<File>, f: File)
    requires 0 < level < |levels| && inputs <= levels[level - 1] + levels[level] && NoGap(inputs) && ClearTo(levels, level, f)
    ensures OneSide(f, inputs)
  {
    forall g | g in inputs
      ensures !Overlaps(f, g)
    {
      assert g in levels[level - 1] || g in levels[level];
    }
    LoHi(f);
    assert Misses(inputs, Lo(f), Hi(f));
  }

  lemma FlushKeepsBase(levels: seq<set<File>>, level: nat, f: File, j: Job, after: seq<set<File>>)
    requires j.level + 1 < |levels| && j.in0 <= levels[j.level] && j.in1 <= levels[j.level + 1]
    requires level < |levels| && (level > 0 ==> ClearTo(levels, level, f)) && after == levels[level := levels[level] + {f}]
    requires BaseExact(levels, j.base, j.level, j.in0 + j.in1)
    ensures BaseExact(after, j.base, j.level, j.in0 + j.in1)
  {
    forall g, e, l, h | g in j.in0 + j.in1 && e in g.entries && NoDeeperFile(j.base, j.level, e.user)
                        && j.level + 2 <= l < |after| && h in after[l]
      ensures !SharesUser(h, e.user)
    {
      if h !in levels[l] {
        assert g in levels[j.level] || g in levels[j.level + 1];
        assert !Overlaps(f, g);
        NoOverlap(g, f);
      }
    }
  }

  lemma FlushKeepsInv(s: State, level: nat, f: File, t: State)
    requires Inv(s) && Next(s, Flush(level, f), t)
    ensures Inv(t)
  {
    ContentsAfterFlush(s.levels, level, f);
    FlushKeepsWellOrdered(s, level, f, t);
    FlushKeepsJob(s, level, f, t);
    assert Live(t) == Live(s);
    assert NewerThan(t.mem, AllContents(t.levels));
  }

  lemma FlushEmptyKeepsInv(s: State, t: State)
    requires Inv(s) && Next(s, FlushEmpty, t)
    ensures Inv(t)
  {
    assert Live(t) == Live(s);
    MemoryMoves(s, t);
  }

  // Starting a compaction

  /** A file left behind in the output level lies on one side of all inputs. */
  lemma LeftBehindIsOneSided(levels: seq<set<File>>, level: nat, in0: set<File>, in1: set<File>, g: File)
    requires WellOrdered(levels) && level + 1 < |levels| && Selected(levels, level, in0, in1)
    requires g in levels[level + 1] - in1
    ensures OneSide(g, in0 + in1)
  {
    assert !MeetsHull(g, in0);
    LoHi(g);
    if forall f :: f in in0 ==> Hi(f) < Lo(g) {
      forall f | f in in1
        ensures Below(f, g)
      {
        assert MeetsHull(f, in0) && Apart(f, g);
        var f1 :| f1 in in0 && Lo(f) <= Hi(f1);
      }
    } else {
      assert forall f :: f in in0 ==> Hi(g) < Lo(f);
      forall f | f in in1
        ensures Below(g, f)
      {
        assert MeetsHull(f, in0) && Apart(f, g);
        var f1 :| f1 in in0 && Lo(f1) <= Hi(f);
      }
    }
  }

  lemma NoDeeperFileIsExact(levels: seq<set<File>>, level: nat, inputs: set<File>)
    ensures BaseExact(levels, levels, level, inputs)
  {
    forall f, e, l, g | f in inputs && e in f.entries && NoDeeperFile(levels, level, e.user)
                        && level + 2 <= l < |levels| && g in levels[l]
      ensures !SharesUser(g, e.user)
    {
      if SharesUser(g, e.user) {
        var x :| x in g.entries && x.user == e.user;
        Bounds(g, x);
        assert Holds(g, e.user);
      }
    }
  }

  lemma BeginKeepsInv(s: State, j: Job, t: State)
    requires Inv(s) && Next(s, BeginCompaction(j), t)
    ensures Inv(t)
  {
    BeginIsSound(s, j, t);
    assert Live(t) == Live(s);
  }

  lemma BeginIsSound(s: State, j: Job, t: State)
    requires WellOrdered(s.levels) && Next(s, BeginCompaction(j), t)
    ensures JobSound(t)
  {
    NoDeeperFileIsExact(s.levels, j.level, j.in0 + j.in1);
    forall g | g in s.levels[j.level + 1] - j.in1
      ensures OneSide(g, j.in0 + j.in1)
    {
      LeftBehindIsOneSided(s.levels, j.level, j.in0, j.in1, g);
    }
  }

  lemma AbandonKeepsInv(s: State, t: State)
    requires Inv(s) && Next(s, AbandonCompaction, t)
    ensures Inv(t)
  {
    assert Live(t) == Live(s);
  }

  // Installing a compaction

  /** Replacing the inputs by files made of input entries keeps the levels well ordered. */
  ghost predicate Replaceable(levels: seq<set<File>>, level: nat, in0: set<File>, in1: set<File>, outs: set<File>) {
    && WellOrdered(levels) && level + 1 < |levels| && in0 <= levels[level] && in1 <= levels[level + 1]
    && Closed(levels, level, in0, in1)
    && (forall g :: g in levels[level + 1] - in1 ==> OneSide(g, in0 + in1))
    && DisjointLevel(outs) && Contents(outs) <= Contents(in0 + in1)
  }

  lemma OutputIsApart(inputs: set<File>, outs: set<File>, o: File, g: File)
    requires Contents(outs) <= Contents(inputs) && o in outs && OneSide(g, inputs)
    ensures Apart(o, g) && Apart(g, o)
  {
    var first, last := o.entries[0], o.entries[|o.entries| - 1];
    assert first in o.entries && last in o.entries;
    assert first in Contents(inputs) && last in Contents(inputs);
    var f1 :| f1 in inputs && first in f1.entries;
    var f2 :| f2 in inputs && last in f2.entries;
    Bounds(f1, first);
    Bounds(f2, last);
    if forall f :: f in inputs ==> Below(f, g) {
      assert Below(f2, g);
    } else {
      assert Below(g, f1);
    }
  }

  lemma OutputLevelIsDisjoint(levels: seq<set<File>>, level: nat, in0: set<File>, in1: set<File>, outs: set<File>)
    requires Replaceable(levels, level, in0, in1, outs)
    ensures DisjointLevel(levels[level + 1] - in1 + outs)
  {
    forall o, g | o in outs && g in levels[level + 1] - in1
      ensures Apart(o, g) && Apart(g, o)
    {
      OutputIsApart(in0 + in1, outs, o, g);
    }
    assert DisjointLevel(levels[level + 1]);
  }

  /** Output entries keep their place in the order of age between the levels. */
  lemma OutputRecency(levels: seq<set<File>>, level: nat, in0: set<File>, in1: set<File>, outs: set<File>, o: File, i: nat, g: File)
    requires Replaceable(levels, level, in0, in1, outs) && o in outs
    requires i < |levels| && g in Relocate(levels, level, in0, in1, outs)[i]
    ensures i <= level ==> FileNewer(g, o)
    ensures i > level + 1 ==> FileNewer(o, g)
  {
    forall x, y | x in o.entries && y in g.entries && x.user == y.user && i != level + 1
      ensures i <= level ==> y.sequence > x.sequence
      ensures i > level + 1 ==> x.sequence > y.sequence
    {
      assert x in Contents(outs);
      assert x in Contents(in0 + in1);
      var f :| f in in0 + in1 && x in f.entries;
      if i < level {
        assert FileNewer(g, f);
      } else if i == level {
        assert g in levels[level] - in0;
      } else {
        assert FileNewer(f, g);
      }
    }
  }

  lemma RelocateKeepsWellOrdered(levels: seq<set<File>>, level: nat, in0: set<File>, in1: set<File>, outs: set<File>)
    requires Replaceable(levels, level, in0, in1, outs)
    ensures WellOrdered(Relocate(levels, level, in0, in1, outs))
  {
    var after := Relocate(levels, level, in0, in1, outs);
    forall i, j, g, h | 0 <= i < j < |after| && g in after[i] && h in after[j]
      ensures FileNewer(g, h)
    {
      if g in levels[i] && h in levels[j] {
      } else if g !in levels[i] {
        OutputRecency(levels, level, in0, in1, outs, g, j, h);
      } else {
        OutputRecency(levels, level, in0, in1, outs, h, i, g);
      }
    }
    OutputLevelIsDisjoint(levels, level, in0, in1, outs);
    forall i | 1 <= i < NUM_LEVELS
      ensures DisjointLevel(after[i])
    {
      assert DisjointLevel(levels[i]);
    }
  }

  /** No entry sits both in an input and in a file left behind. */
  lemma InputsAreElsewhereAbsent(levels: seq<set<File>>, i: nat, k: nat, f: File, g: File, e: Entry)
    requires WellOrdered(levels) && i < |levels| && k < |levels| && f in levels[i] && g in levels[k]
    requires e in f.entries && e in g.entries
    ensures i == k && f == g
  {
    SharedEntry(f, g, e);
    assert i == k;
    if i > 0 {
      assert DisjointLevel(levels[i]);
    }
  }

  lemma SharedEntry(f: File, g: File, e: Entry)
    requires e in f.entries && e in g.entries
    ensures !FileNewer(f, g) && !FileNewer(g, f) && !Apart(f, g)
  {
    Bounds(f, e);
    Bounds(g, e);
  }

  lemma LeftBehindHasNoInput(levels: seq<set<File>>, level: nat, in0: set<File>, in1: set<File>, i: nat, g: File, e: Entry)
    requires WellOrdered(levels) && level + 1 < |levels| && in0 <= levels[level] && in1 <= levels[level + 1]
    requires i < |levels| && g in levels[i] && e in g.entries
    requires (i == level ==> g !in in0) && (i == level + 1 ==> g !in in1)
    ensures e !in Contents(in0 + in1)
  {
    forall f | f in in0 + in1
      ensures e !in f.entries
    {
      if e in f.entries && f in in0 {
        InputsAreElsewhereAbsent(levels, level, i, f, g, e);
      } else if e in f.entries {
        InputsAreElsewhereAbsent(levels, level + 1, i, f, g, e);
      }
    }
  }

  lemma ContentsAfterRelocate(levels: seq<set<File>>, level: nat, in0: set<File>, in1: set<File>, outs: set<File>)
    requires WellOrdered(levels) && level + 1 < |levels| && in0 <= levels[level] && in1 <= levels[level + 1]
    ensures AllContents(Relocate(levels, level, in0, in1, outs))
         == AllContents(levels) - Contents(in0 + in1) + Contents(outs)
    ensures Contents(in0 + in1) <= AllContents(levels)
  {
    var after := Relocate(levels, level, in0, in1, outs);
    forall e | e in AllContents(after)
      ensures e in AllContents(levels) - Contents(in0 + in1) + Contents(outs)
    {
      var i: nat, g: File :| 0 <= i < |after| && g in after[i] && e in g.entries;
      if !(g in outs && i == level + 1) {
        LeftBehindHasNoInput(levels, level, in0, in1, i, g, e);
      }
    }
    forall e | e in AllContents(levels) && e !in Contents(in0 + in1)
      ensures e in AllContents(after)
    {
      var i, g :| 0 <= i < |levels| && g in levels[i] && e in g.entries;
      assert g in after[i];
    }
    forall e | e in Contents(outs)
      ensures e in AllContents(after)
    {
      var o :| o in outs && e in o.entries;
      assert o in after[level + 1];
    }
    forall e | e in Contents(in0 + in1)
      ensures e in AllContents(levels)
    {
      var f :| f in in0 + in1 && e in f.entries;
      if f in in0 {
        assert f in levels[level];
      } else {
        assert f in levels[level + 1];
      }
    }
  }

  /** In a sound compaction no older entry outside the inputs shares a key with a deletion
      marker that the drop rule may discard. */
  lemma OlderOutsideInputs(s: State, t: Entry, p: Entry)
    requires Ordered(s) && JobSound(s) && s.job.Some?
    requires t in Contents(s.job.value.in0 + s.job.value.in1)
    requires p in Live(s) && p !in Contents(s.job.value.in0 + s.job.value.in1)
    requires t.user == p.user && NoDeeperFile(s.job.value.base, s.job.value.level, t.user)
    ensures p.sequence > t.sequence
  {
    var j := s.job.value;
    ContentsAfterRelocate(s.levels, j.level, j.in0, j.in1, {});
    if p in AllContents(s.levels) {
      var f :| f in j.in0 + j.in1 && t in f.entries;
      var l, g :| 0 <= l < |s.levels| && g in s.levels[l] && p in g.entries;
      assert g !in j.in0 + j.in1;
      NewerOutsideInputs(s, f, l, g, t, p);
    }
  }

  lemma NewerOutsideInputs(s: State, f: File, l: nat, g: File, t: Entry, p: Entry)
    requires Ordered(s) && JobSound(s) && s.job.Some? && l < |s.levels|
    requires f in s.job.value.in0 + s.job.value.in1 && t in f.entries
    requires g in s.levels[l] - (s.job.value.in0 + s.job.value.in1) && p in g.entries
    requires t.user == p.user && NoDeeperFile(s.job.value.base, s.job.value.level, t.user)
    ensures p.sequence > t.sequence
  {
    if l <= s.job.value.level + 1 {
      assert FileNewer(g, f);
    } else {
      assert SharesUser(g, t.user);
    }
  }

  lemma NothingExposed(s: State, rest: set<Entry>, u: UserKey)
    requires Ordered(s) && JobSound(s) && s.job.Some?
    requires rest == Live(s) - Contents(s.job.value.in0 + s.job.value.in1)
    ensures !Exposed(rest, Contents(s.job.value.in0 + s.job.value.in1), s.job.value.base, s.job.value.level, s.job.value.snapshot, u)
  {
    var j := s.job.value;
    var inputs := Contents(j.in0 + j.in1);
    forall t, p | Newest(rest + inputs, u, j.snapshot, t) && t in inputs && NoDeeperFile(j.base, j.level, u)
                  && Newest(rest, u, j.snapshot, p)
      ensures false
    {
      assert p in rest + inputs && Visible(p, u, j.snapshot);
      OlderOutsideInputs(s, t, p);
    }
  }

  lemma InstallKeepsReads(s: State, rest: set<Entry>)
    requires Ordered(s) && JobSound(s) && s.job.Some?
    requires rest == Live(s) - Contents(s.job.value.in0 + s.job.value.in1)
    ensures var j := s.job.value;
            forall u, n :: n >= j.snapshot ==>
              Read(Live(s), u, n) == Read(rest + Kept(Contents(j.in0 + j.in1), j.base, j.level, j.snapshot), u, n)
  {
    var j := s.job.value;
    var inputs := Contents(j.in0 + j.in1);
    ContentsAfterRelocate(s.levels, j.level, j.in0, j.in1, {});
    assert rest + inputs == Live(s);
    forall u
      ensures !Exposed(rest, inputs, j.base, j.level, j.snapshot, u)
    {
      NothingExposed(s, rest, u);
    }
    ReadsPreservedIff(rest, inputs, j.base, j.level, j.snapshot);
  }

  /** Nothing in memory is in an input file. */
  lemma LiveAfterRelocate(s: State, t: State, level: nat, in0: set<File>, in1: set<File>, outs: set<File>)
    requires Ordered(s) && level + 1 < |s.levels| && in0 <= s.levels[level] && in1 <= s.levels[level + 1]
    requires t.mem == s.mem && t.imm == s.imm && t.levels == Relocate(s.levels, level, in0, in1, outs)
    ensures Live(t) == Live(s) - Contents(in0 + in1) + Contents(outs)
    ensures Contents(in0 + in1) <= Live(s)
  {
    ContentsAfterRelocate(s.levels, level, in0, in1, outs);
    assert forall e :: e in s.mem && e in AllContents(s.levels) ==> e.sequence > e.sequence;
    assert forall e :: e in Immutable(s) && e in AllContents(s.levels) ==> e.sequence > e.sequence;
  }

  lemma RelocateKeepsOrder(s: State, t: State, level: nat, in0: set<File>, in1: set<File>, outs: set<File>)
    requires Ordered(s) && Replaceable(s.levels, level, in0, in1, outs)
    requires t == s.(levels := Relocate(s.levels, level, in0, in1, outs), nextFile := t.nextFile, job := t.job, floor := t.floor)
    requires t.nextFile >= s.nextFile
    ensures Ordered(t)
  {
    RelocateKeepsWellOrdered(s.levels, level, in0, in1, outs);
    LiveAfterRelocate(s, t, level, in0, in1, outs);
    ContentsAfterRelocate(s.levels, level, in0, in1, outs);
    assert AllContents(t.levels) <= AllContents(s.levels);
    assert Live(t) <= Live(s);
  }

  lemma OutputsAreDisjoint(outputs: seq<File>)
    requires Ascending(outputs)
    ensures DisjointLevel(FileSet(outputs))
  {
    forall f, g | f in FileSet(outputs) && g in FileSet(outputs) && f != g
      ensures Apart(f, g)
    {
      var i :| 0 <= i < |outputs| && outputs[i] == f;
      var k :| 0 <= k < |outputs| && outputs[k] == g;
    }
  }

  lemma InstallKeepsInv(s: State, outputs: seq<File>, nextFile: nat, t: State)
    requires Inv(s) && Next(s, InstallCompaction(outputs, nextFile), t)
    ensures Inv(t)
  {
    var j := s.job.value;
    var outs := FileSet(outputs);
    var rest := Live(s) - Contents(j.in0 + j.in1);
    OutputsAreDisjoint(outputs);
    RelocateKeepsOrder(s, t, j.level, j.in0, j.in1, outs);
    LiveAfterRelocate(s, t, j.level, j.in0, j.in1, outs);
    InstallKeepsReads(s, rest);
    assert Live(t) == rest + Kept(Contents(j.in0 + j.in1), j.base, j.level, j.snapshot);
  }

  lemma MoveKeepsInv(s: State, level: nat, f: File, t: State)
    requires Inv(s) && Next(s, TrivialMove(level, f), t)
    ensures Inv(t)
  {
    forall g | g in s.levels[level + 1] - {}
      ensures OneSide(g, {f} + {})
    {
      LeftBehindIsOneSided(s.levels, level, {f}, {}, g);
    }
    assert {f} + {} == {f};
    RelocateKeepsOrder(s, t, level, {f}, {}, {f});
    LiveAfterRelocate(s, t, level, {f}, {}, {f});
    assert Live(t) == Live(s);
  }

  // Whole runs

  lemma NextKeepsInv(s: State, step: Step, t: State)
    requires Inv(s) && Next(s, step, t)
    ensures Inv(t)
  {
    match step
    case Write(ops) => WriteKeepsInv(s, ops, t);
    case SwitchMemTable => SwitchKeepsInv(s, t);
    case Flush(level, file) => FlushKeepsInv(s, level, file, t);
    case FlushEmpty => FlushEmptyKeepsInv(s, t);
    case BeginCompaction(j) => BeginKeepsInv(s, j, t);
    case InstallCompaction(outputs, nextFile) => InstallKeepsInv(s, outputs, nextFile, t);
    case AbandonCompaction => AbandonKeepsInv(s, t);
    case TrivialMove(level, f) => MoveKeepsInv(s, level, f, t);
    case TakeSnapshot => SnapshotKeepsInv(s, step, t);
    case ReleaseSnapshot(n) => SnapshotKeepsInv(s, step, t);
  }

  ghost predicate Run(states: seq<State>, steps: seq<Step>) {
    && |states| == |steps| + 1 && states[0] == Init()
    && forall i :: 0 <= i < |steps| ==> Next(states[i], steps[i], states[i + 1])
  }

  lemma {:induction false} RunKeepsInv(states: seq<State>, steps: seq<Step>, n: nat)
    requires Run(states, steps) && n < |states|
    ensures Inv(states[n])
  {
    if n == 0 {
      assert Live(Init()) == {};
    } else {
      RunKeepsInv(states, steps, n - 1);
      NextKeepsInv(states[n - 1], steps[n - 1], states[n]);
    }
  }

  /** In every state of every run, every key read at the latest sequence number or at a live
      snapshot has the value that the complete history of writes gives it. */
  lemma RunReadsHistory(states: seq<State>, steps: seq<Step>, n: nat, u: UserKey, snapshot: nat)
    requires Run(states, steps) && n < |states|
    requires snapshot == states[n].lastSequence || snapshot in states[n].snapshots
    ensures Read(Live(states[n]), u, snapshot) == Read(states[n].history, u, snapshot)
  {
    RunKeepsInv(states, steps, n);
  }
}
