/** When every choice of inputs is closed: while no two files of a sorted level share a user
    key, which outputs cut only between user keys keep so. */
module KeySeparation {
  import opened Keys
  import opened Lsm
  import opened DropRule
  import opened Overlap
  import opened Pick
  import opened Engine
  import opened EngineProofs

  ghost predicate Separate(f: File, g: File) {
    forall x, y :: x in f.entries && y in g.entries ==> x.user != y.user
  }

  ghost predicate AllSeparate(files: set<File>) {
    forall f, g :: f in files && g in files && f != g ==> Separate(f, g)
  }

  /** No two files of one level above 0 share a user key. */
  ghost predicate KeySeparate(levels: seq<set<File>>) {
    forall i :: 1 <= i < |levels| ==> AllSeparate(levels[i])
  }

  lemma NoOverlapSeparates(f: File, g: File)
    requires !Overlaps(f, g)
    ensures Separate(f, g) && Separate(g, f)
  {
    NoOverlap(f, g);
    forall x, y | x in f.entries && y in g.entries
      ensures x.user != y.user
    {
      assert !SharesUser(g, x.user);
    }
  }

  /** Input selection is then closed, although it never looks for boundary files. */
  lemma SeparateIsClosed(levels: seq<set<File>>, level: nat, in0: set<File>, in1: set<File>)
    requires WellOrdered(levels) && level + 1 < |levels| && Selected(levels, level, in0, in1)
    requires KeySeparate(levels)
    ensures Closed(levels, level, in0, in1)
  {
    forall f, g | f in in0 + in1 && g in levels[level] - in0
      ensures FileNewer(g, f)
    {
      UpperIsClosed(levels, level, in0, in1, f, g);
    }
    forall f, g | f in in0 + in1 && g in levels[level + 1] - in1
      ensures FileNewer(g, f)
    {
      LowerIsClosed(levels, level, in0, in1, f, g);
    }
  }

  lemma UpperIsClosed(levels: seq<set<File>>, level: nat, in0: set<File>, in1: set<File>, f: File, g: File)
    requires WellOrdered(levels) && level + 1 < |levels| && Selected(levels, level, in0, in1) && KeySeparate(levels)
    requires f in in0 + in1 && g in levels[level] - in0
    ensures FileNewer(g, f)
  {
    if f in in1 {
      assert f in levels[level + 1];
    } else if level == 0 {
      assert !Overlaps(f, g);
      NoOverlapSeparates(f, g);
    } else {
      assert AllSeparate(levels[level]);
      assert Separate(f, g);
    }
  }

  lemma LowerIsClosed(levels: seq<set<File>>, level: nat, in0: set<File>, in1: set<File>, f: File, g: File)
    requires level + 1 < |levels| && Selected(levels, level, in0, in1) && KeySeparate(levels)
    requires f in in0 + in1 && g in levels[level + 1] - in1
    ensures FileNewer(g, f)
  {
    if f in in0 {
      LeftBehindMisses(levels, level, in0, in1, f, g);
    } else {
      assert AllSeparate(levels[level + 1]);
      assert Separate(f, g);
    }
  }

  lemma LeftBehindMisses(levels: seq<set<File>>, level: nat, in0: set<File>, in1: set<File>, f: File, g: File)
    requires level + 1 < |levels| && Selected(levels, level, in0, in1)
    requires f in in0 && g in levels[level + 1] - in1
    ensures Separate(f, g)
  {
    assert !MeetsHull(g, in0);
    NoOverlapSeparates(f, g);
  }

  lemma FlushKeepsSeparate(levels: seq<set<File>>, level: nat, f: File)
    requires KeySeparate(levels) && level < |levels| && (level > 0 ==> ClearTo(levels, level, f))
    ensures KeySeparate(levels[level := levels[level] + {f}])
  {
    var after := levels[level := levels[level] + {f}];
    forall i, g, h | 1 <= i < |after| && g in after[i] && h in after[i] && g != h
      ensures Separate(g, h)
    {
      assert AllSeparate(levels[i]);
      if g !in levels[i] {
        NoOverlapSeparates(f, h);
      } else if h !in levels[i] {
        NoOverlapSeparates(f, g);
      }
    }
  }

  /** A closed choice shares no key with the files left behind in the output level. */
  lemma OutputsSeparate(levels: seq<set<File>>, level: nat, in0: set<File>, in1: set<File>, outs: set<File>, o: File, g: File)
    requires WellOrdered(levels) && level + 1 < |levels| && in0 <= levels[level] && in1 <= levels[level + 1]
    requires Closed(levels, level, in0, in1) && KeySeparate(levels)
    requires Contents(outs) <= Contents(in0 + in1) && o in outs && g in levels[level + 1] - in1
    ensures Separate(o, g) && Separate(g, o)
  {
    forall x, y | x in o.entries && y in g.entries
      ensures x.user != y.user
    {
      assert x in Contents(outs);
      assert x in Contents(in0 + in1);
      var f :| f in in0 + in1 && x in f.entries;
      if f in in0 {
        assert FileNewer(f, g) && FileNewer(g, f);
      } else {
        assert AllSeparate(levels[level + 1]);
      }
    }
  }

  lemma RelocateKeepsSeparate(levels: seq<set<File>>, level: nat, in0: set<File>, in1: set<File>, outs: set<File>)
    requires WellOrdered(levels) && level + 1 < |levels| && in0 <= levels[level] && in1 <= levels[level + 1]
    requires Closed(levels, level, in0, in1) && KeySeparate(levels)
    requires Contents(outs) <= Contents(in0 + in1) && AllSeparate(outs)
    ensures KeySeparate(Relocate(levels, level, in0, in1, outs))
  {
    var after := Relocate(levels, level, in0, in1, outs);
    forall i, g, h | 1 <= i < |after| && g in after[i] && h in after[i] && g != h
      ensures Separate(g, h)
    {
      assert AllSeparate(levels[i]);
      if g !in levels[i] && h !in outs {
        OutputsSeparate(levels, level, in0, in1, outs, g, h);
      } else if h !in levels[i] && g !in outs {
        OutputsSeparate(levels, level, in0, in1, outs, h, g);
      }
    }
  }

  /** The outputs of a compaction are cut only between user keys. */
  ghost predicate CutBetweenKeys(step: Step) {
    step.InstallCompaction? ==> AllSeparate(FileSet(step.outputs))
  }

  lemma NextKeepsSeparate(s: State, step: Step, t: State)
    requires Inv(s) && Next(s, step, t) && KeySeparate(s.levels) && CutBetweenKeys(step)
    ensures KeySeparate(t.levels)
  {
    match step
    case Flush(level, file) => FlushKeepsSeparate(s.levels, level, file);
    case InstallCompaction(outputs, nextFile) =>
      var j := s.job.value;
      RelocateKeepsSeparate(s.levels, j.level, j.in0, j.in1, FileSet(outputs));
    case TrivialMove(level, f) =>
      assert {f} + {} == {f};
      RelocateKeepsSeparate(s.levels, level, {f}, {}, {f});
    case _ =>
  }

  /** In a run whose outputs are cut only between user keys, every choice of inputs in every
      state is closed, so the premise `Closed` of the engine's steps costs nothing. */
  lemma {:induction false} RunStaysClosed(states: seq<State>, steps: seq<Step>, n: nat)
    requires Run(states, steps) && n < |states| && forall i :: 0 <= i < n ==> CutBetweenKeys(steps[i])
    ensures KeySeparate(states[n].levels)
    ensures forall level: nat, in0, in1 :: level + 1 < |states[n].levels| && Selected(states[n].levels, level, in0, in1)
              ==> Closed(states[n].levels, level, in0, in1)
  {
    RunKeepsInv(states, steps, n);
    if n > 0 {
      RunStaysClosed(states, steps, n - 1);
      RunKeepsInv(states, steps, n - 1);
      NextKeepsSeparate(states[n - 1], steps[n - 1], states[n]);
    }
    forall level: nat, in0, in1 | level + 1 < |states[n].levels| && Selected(states[n].levels, level, in0, in1)
      ensures Closed(states[n].levels, level, in0, in1)
    {
      SeparateIsClosed(states[n].levels, level, in0, in1);
    }
  }
}
