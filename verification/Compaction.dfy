/** DoCompactionWork: which entries a compaction keeps, and what reads see afterwards. */
module DropRule {
  import opened Keys
  import opened Reads
  import opened Lsm

  predicate Holds(f: File, u: UserKey) {
    Smallest(f).user <= u <= Largest(f).user
  }

  /** No file two or more levels below `level` has `u` in its key range. */
  ghost predicate NoDeeperFile(levels: seq<set<File>>, level: nat, u: UserKey) {
    forall l, f :: level + 2 <= l < |levels| && f in levels[l] ==> !Holds(f, u)
  }

  /** An input entry that a newer input entry of the same key hides from every snapshot that
      is still in use, because that newer entry is itself old enough for all of them. */
  ghost predicate Hidden(inputs: set<Entry>, snapshot: nat, e: Entry) {
    exists x :: x in inputs && x.user == e.user && e.sequence < x.sequence <= snapshot
  }

  /** A deletion marker with nothing below it to delete. */
  ghost predicate Obsolete(levels: seq<set<File>>, level: nat, snapshot: nat, e: Entry) {
    e.op.Delete? && e.sequence <= snapshot && NoDeeperFile(levels, level, e.user)
  }

  ghost predicate Keeps(inputs: set<Entry>, levels: seq<set<File>>, level: nat, snapshot: nat, e: Entry) {
    !Hidden(inputs, snapshot, e) && !Obsolete(levels, level, snapshot, e)
  }

  ghost function Kept(inputs: set<Entry>, levels: seq<set<File>>, level: nat, snapshot: nat): set<Entry> {
    set e | e in inputs && Keeps(inputs, levels, level, snapshot, e)
  }

  /** A compaction keeps of each key what is newer than the oldest snapshot and the one version this
      snapshot reads, unless that is a deletion marker with nothing below it. */
  lemma KeptIs(inputs: set<Entry>, levels: seq<set<File>>, level: nat, snapshot: nat, e: Entry)
    requires e in inputs
    ensures e in Kept(inputs, levels, level, snapshot)
       <==> && (e.sequence > snapshot || Newest(inputs, e.user, snapshot, e))
            && !(e.op.Delete? && e.sequence <= snapshot && forall l, f :: level + 2 <= l < |levels| && f in levels[l] ==>
                   e.user < Smallest(f).user || Largest(f).user < e.user)
  {
    assert forall l, f :: level + 2 <= l < |levels| && f in levels[l] ==>
             (Holds(f, e.user) <==> !(e.user < Smallest(f).user || Largest(f).user < e.user));
    if e.sequence <= snapshot && !Hidden(inputs, snapshot, e) {
      forall x | x in inputs && Visible(x, e.user, snapshot)
        ensures x.sequence <= e.sequence
      {
      }
    }
  }

  /** Nothing superfluous is carried along: of the versions that the oldest snapshot could read, at
      most one per key is left. */
  lemma OneVersionLeft(inputs: set<Entry>, levels: seq<set<File>>, level: nat, snapshot: nat, x: Entry, y: Entry)
    requires Unique(inputs) && x in Kept(inputs, levels, level, snapshot) && y in Kept(inputs, levels, level, snapshot)
    requires x.user == y.user && x.sequence <= snapshot && y.sequence <= snapshot
    ensures x == y
  {
    KeptIs(inputs, levels, level, snapshot, x);
    KeptIs(inputs, levels, level, snapshot, y);
    assert Visible(x, y.user, snapshot) && Visible(y, x.user, snapshot);
  }

  function Flatten(outputs: seq<seq<Entry>>): seq<Entry> {
    if outputs == [] then [] else Flatten(outputs[..|outputs| - 1]) + outputs[|outputs| - 1]
  }

  /** The state of one compaction.  level_ptrs_ only ever moves forward, which is enough
      because the merged input asks about its user keys in non-decreasing order. */
  class Compaction {
    const level: nat
    const version: seq<seq<File>>
    const levelPtrs: array<nat>
    ghost const levels: seq<set<File>>
    ghost var asked: Option<UserKey>

    ghost predicate Valid()
      reads this, levelPtrs
    {
      && Lists(version, levels) && |version| == NUM_LEVELS && level + 1 < NUM_LEVELS
      && levelPtrs.Length == NUM_LEVELS
      && (forall l :: 0 <= l < NUM_LEVELS ==> levelPtrs[l] <= |version[l]|)
      && (forall l, i :: 0 <= l < NUM_LEVELS && 0 <= i < levelPtrs[l] ==> Passed(version[l][i]))
    }

    ghost predicate Passed(f: File)
      reads this
    {
      asked.Some? && Largest(f).user < asked.value
    }

    constructor (level: nat, version: seq<seq<File>>, ghost levels: seq<set<File>>)
      requires Lists(version, levels) && |version| == NUM_LEVELS && level + 1 < NUM_LEVELS
      ensures Valid() && asked == None && fresh(levelPtrs)
      ensures this.level == level && this.version == version && this.levels == levels
    {
      this.level, this.version, this.levels := level, version, levels;
      levelPtrs := new nat[NUM_LEVELS](_ => 0);
      asked := None;
    }

    /** Exact, although the pointers never move back. */
    method IsBaseLevelForKey(u: UserKey) returns (base: bool)
      requires Valid() && (asked.None? || asked.value <= u)
      modifies this`asked, levelPtrs
      ensures Valid() && asked == Some(u)
      ensures base <==> NoDeeperFile(levels, level, u)
    {
      asked := Some(u);
      for lvl := level + 2 to NUM_LEVELS
        invariant Valid() && asked == Some(u)
        invariant forall l, f :: level + 2 <= l < lvl && f in levels[l] ==> !Holds(f, u)
      {
        var files := version[lvl];
        while levelPtrs[lvl] < |files|
          invariant Valid() && asked == Some(u)
          decreases |files| - levelPtrs[lvl]
        {
          var f := files[levelPtrs[lvl]];
          if u <= Largest(f).user {
            if u >= Smallest(f).user {
              assert f in levels[lvl] && Holds(f, u);
              return false;
            }
            break;
          }
          levelPtrs[lvl] := levelPtrs[lvl] + 1;
        }
        forall f | f in levels[lvl]
          ensures !Holds(f, u)
        {
          var i :| 0 <= i < |files| && files[i] == f;
          if i < levelPtrs[lvl] {
            assert Passed(files[i]);
          } else if i > levelPtrs[lvl] {
            assert Before(Largest(files[levelPtrs[lvl]]), Smallest(files[i]));
          }
        }
      }
      return true;
    }
  }

  /** The merging loop of DoCompactionWork.  `stopBefore[n]` is the answer of ShouldStopBefore
      and `full[n]` whether the output has reached its maximal size; both are byte-counting
      policy.  Together the outputs hold exactly the kept entries, in order. */
  method DoCompactionWork(c: Compaction, input: seq<Entry>, snapshot: nat, stopBefore: seq<bool>, full: seq<bool>)
    returns (outputs: seq<seq<Entry>>)
    requires c.Valid() && c.asked == None
    requires Sorted(input) && Unique(EntrySet(input))
    requires |stopBefore| == |input| == |full|
    requires snapshot < MAX_SEQUENCE
    modifies c`asked, c.levelPtrs
    ensures forall o :: o in outputs ==> o != []
    ensures Sorted(Flatten(outputs))
    ensures EntrySet(Flatten(outputs)) == Kept(EntrySet(input), c.levels, c.level, snapshot)
  {
    outputs := [];
    var builder: Option<seq<Entry>> := None;
    var currentUserKey: Option<UserKey> := None;
    var lastSequenceForKey: nat := MAX_SEQUENCE;
    ghost var kept := [];
    for n := 0 to |input|
      invariant c.Valid() && (c.asked.Some? ==> n > 0 && c.asked.value <= input[n - 1].user)
      invariant n > 0 ==> currentUserKey == Some(input[n - 1].user) && lastSequenceForKey == input[n - 1].sequence
      invariant n == 0 ==> currentUserKey == None
      invariant builder.Some? ==> builder.value != []
      invariant forall o :: o in outputs ==> o != []
      invariant kept == Flatten(outputs) + (if builder.Some? then builder.value else [])
      invariant kept in Filters(input, n, c.levels, c.level, snapshot)
    {
      if stopBefore[n] && builder.Some? {
        outputs := Close(outputs, builder.value);
        builder := None;
      }
      var e := input[n];
      var drop;
      drop, currentUserKey, lastSequenceForKey := ShouldDrop(c, input, n, snapshot, currentUserKey, lastSequenceForKey);
      FilterStep(kept, input, n, c.levels, c.level, snapshot);
      if !drop {
        kept := kept + [e];
        builder := Some((if builder.Some? then builder.value else []) + [e]);
        if full[n] {
          outputs := Close(outputs, builder.value);
          builder := None;
        }
      }
    }
    if builder.Some? {
      outputs := Close(outputs, builder.value);
    }
    assert kept == Flatten(outputs);
    assert input[..|input|] == input;
  }

  /** The drop rule, for the entry the input has come to. */
  method ShouldDrop(c: Compaction, input: seq<Entry>, n: nat, snapshot: nat, current: Option<UserKey>, last: nat)
    returns (drop: bool, currentUserKey: Option<UserKey>, lastSequenceForKey: nat)
    requires c.Valid() && Sorted(input) && Unique(EntrySet(input)) && n < |input| && snapshot < MAX_SEQUENCE
    requires c.asked.Some? ==> n > 0 && c.asked.value <= input[n - 1].user
    requires n > 0 ==> current == Some(input[n - 1].user) && last == input[n - 1].sequence
    requires n == 0 ==> current == None
    modifies c`asked, c.levelPtrs
    ensures c.Valid() && (c.asked.Some? ==> c.asked.value <= input[n].user)
    ensures drop <==> !Keeps(EntrySet(input), c.levels, c.level, snapshot, input[n])
    ensures currentUserKey == Some(input[n].user) && lastSequenceForKey == input[n].sequence
  {
    var e := input[n];
    drop, currentUserKey, lastSequenceForKey := false, current, last;
    if currentUserKey != Some(e.user) {
      currentUserKey := Some(e.user);
      lastSequenceForKey := MAX_SEQUENCE;
    }
    RuleA(input, n, snapshot);
    if lastSequenceForKey <= snapshot {
      drop := true;
    } else if e.op.Delete? && e.sequence <= snapshot {
      drop := c.IsBaseLevelForKey(e.user);
    }
    lastSequenceForKey := e.sequence;
  }

  /** FinishCompactionOutputFile. */
  method Close(outputs: seq<seq<Entry>>, built: seq<Entry>) returns (r: seq<seq<Entry>>)
    requires built != [] && forall o :: o in outputs ==> o != []
    ensures Flatten(r) == Flatten(outputs) + built
    ensures forall o :: o in r ==> o != []
  {
    r := outputs + [built];
    assert r[..|r| - 1] == outputs;
  }

  ghost predicate FilterOf(kept: seq<Entry>, input: seq<Entry>, n: nat, levels: seq<set<File>>, level: nat, snapshot: nat)
    requires n <= |input|
  {
    && Sorted(kept)
    && (forall e :: e in kept <==> e in input[..n] && Keeps(EntrySet(input), levels, level, snapshot, e))
  }

  /** The sorted kept entries among the first `n`. */
  ghost function Filters(input: seq<Entry>, n: nat, levels: seq<set<File>>, level: nat, snapshot: nat): iset<seq<Entry>>
    requires n <= |input|
  {
    iset kept | FilterOf(kept, input, n, levels, level, snapshot)
  }

  lemma FilterStep(kept: seq<Entry>, input: seq<Entry>, n: nat, levels: seq<set<File>>, level: nat, snapshot: nat)
    requires Sorted(input) && n < |input| && kept in Filters(input, n, levels, level, snapshot)
    ensures Keeps(EntrySet(input), levels, level, snapshot, input[n])
        ==> kept + [input[n]] in Filters(input, n + 1, levels, level, snapshot)
    ensures !Keeps(EntrySet(input), levels, level, snapshot, input[n])
        ==> kept in Filters(input, n + 1, levels, level, snapshot)
  {
    assert input[..n + 1] == input[..n] + [input[n]];
    forall i | 0 <= i < |kept|
      ensures Before(KeyOf(kept[i]), KeyOf(input[n]))
    {
      assert kept[i] in kept;
      var k :| 0 <= k < n && input[k] == kept[i];
    }
  }

  /** Rule (A) looks only at the entry just before; in sorted input that decides `Hidden`. */
  lemma RuleA(input: seq<Entry>, n: nat, snapshot: nat)
    requires Sorted(input) && Unique(EntrySet(input)) && n < |input|
    ensures Hidden(EntrySet(input), snapshot, input[n])
         <==> n > 0 && input[n - 1].user == input[n].user && input[n - 1].sequence <= snapshot
  {
    var e := input[n];
    if n > 0 && input[n - 1].user == e.user && input[n - 1].sequence <= snapshot {
      assert input[n - 1] in EntrySet(input) && e in EntrySet(input);
      assert Before(KeyOf(input[n - 1]), KeyOf(e));
    }
    if Hidden(EntrySet(input), snapshot, e) {
      var x :| x in EntrySet(input) && x.user == e.user && e.sequence < x.sequence <= snapshot;
      var k :| 0 <= k < |input| && input[k] == x;
      if k > n {
        assert Before(KeyOf(e), KeyOf(x));
      }
      if k < n - 1 {
        assert Before(KeyOf(x), KeyOf(input[n - 1])) && Before(KeyOf(input[n - 1]), KeyOf(e));
      }
    }
  }
}

/** What replacing the inputs of a compaction by the kept entries does to reads. */
module CompactionMeaning {
  import opened Keys
  import opened Reads
  import opened Lsm
  import opened DropRule

  /** Dropping the deletion marker of `u` would uncover an older value outside the inputs. */
  ghost predicate Exposed(rest: set<Entry>, inputs: set<Entry>, levels: seq<set<File>>, level: nat, snapshot: nat, u: UserKey) {
    exists t, p ::
      && Newest(rest + inputs, u, snapshot, t) && t in inputs && t.op.Delete? && NoDeeperFile(levels, level, u)
      && Newest(rest, u, snapshot, p) && p.op.Put?
  }

  /** For every snapshot in use and every key: a compaction changes no read exactly when no key
      is exposed.  `rest` is everything outside the inputs, in memory or in any level. */
  lemma ReadsPreservedIff(rest: set<Entry>, inputs: set<Entry>, levels: seq<set<File>>, level: nat, snapshot: nat)
    requires Unique(rest + inputs) && rest !! inputs
    ensures (forall u, s :: s >= snapshot ==>
               Read(rest + inputs, u, s) == Read(rest + Kept(inputs, levels, level, snapshot), u, s))
       <==> (forall u :: !Exposed(rest, inputs, levels, level, snapshot, u))
  {
    if forall u :: !Exposed(rest, inputs, levels, level, snapshot, u) {
      forall u, s: nat | s >= snapshot
        ensures Read(rest + inputs, u, s) == Read(rest + Kept(inputs, levels, level, snapshot), u, s)
      {
        UnexposedReadUnchanged(rest, inputs, levels, level, snapshot, u, s);
      }
    } else {
      var u :| Exposed(rest, inputs, levels, level, snapshot, u);
      ExposedReadChanges(rest, inputs, levels, level, snapshot, u);
    }
  }

  lemma UnexposedReadUnchanged(rest: set<Entry>, inputs: set<Entry>, levels: seq<set<File>>, level: nat, snapshot: nat, u: UserKey, s: nat)
    requires Unique(rest + inputs) && rest !! inputs && s >= snapshot
    requires !Exposed(rest, inputs, levels, level, snapshot, u)
    ensures Read(rest + inputs, u, s) == Read(rest + Kept(inputs, levels, level, snapshot), u, s)
  {
    var kept := Kept(inputs, levels, level, snapshot);
    NewestExists(rest + inputs, u, s);
    if NoneVisible(rest + inputs, u, s) {
      assert NoneVisible(rest + kept, u, s);
    } else {
      var t :| Newest(rest + inputs, u, s, t);
      ReadIs(rest + inputs, u, s, t);
      if t in rest + kept {
        assert Newest(rest + kept, u, s, t);
        ReadIs(rest + kept, u, s, t);
      } else {
        DroppedNewest(rest, inputs, levels, level, snapshot, u, s, t);
        NewestExists(rest + kept, u, s);
        if !NoneVisible(rest + kept, u, s) {
          var p :| Newest(rest + kept, u, s, p);
          ReadIs(rest + kept, u, s, p);
          assert Newest(rest, u, snapshot, p);
        }
      }
    }
  }

  /** A dropped entry that some snapshot in use was reading is a deletion marker, the newest
      entry at the oldest snapshot, and every older input entry of its key is dropped too. */
  lemma DroppedNewest(rest: set<Entry>, inputs: set<Entry>, levels: seq<set<File>>, level: nat, snapshot: nat, u: UserKey, s: nat, t: Entry)
    requires Unique(rest + inputs) && s >= snapshot
    requires Newest(rest + inputs, u, s, t) && t !in rest && t !in Kept(inputs, levels, level, snapshot)
    ensures t in inputs && t.op.Delete? && NoDeeperFile(levels, level, u)
    ensures Newest(rest + inputs, u, snapshot, t)
    ensures forall x :: x in Kept(inputs, levels, level, snapshot) ==> !Visible(x, u, s)
    ensures forall x :: x in rest && Visible(x, u, s) ==> Visible(x, u, snapshot)
  {
    assert !Hidden(inputs, snapshot, t);
    forall x | x in inputs && Visible(x, u, s) && x != t
      ensures Hidden(inputs, snapshot, x)
    {
      assert x in rest + inputs && t in rest + inputs;
    }
    forall x | x in rest && Visible(x, u, s)
      ensures Visible(x, u, snapshot)
    {
      assert x in rest + inputs;
    }
  }

  lemma ExposedReadChanges(rest: set<Entry>, inputs: set<Entry>, levels: seq<set<File>>, level: nat, snapshot: nat, u: UserKey)
    requires Unique(rest + inputs) && rest !! inputs
    requires Exposed(rest, inputs, levels, level, snapshot, u)
    ensures Read(rest + inputs, u, snapshot) == None
    ensures Read(rest + Kept(inputs, levels, level, snapshot), u, snapshot).Some?
  {
    var t, p :|
      && Newest(rest + inputs, u, snapshot, t) && t in inputs && t.op.Delete? && NoDeeperFile(levels, level, u)
      && Newest(rest, u, snapshot, p) && p.op.Put?;
    ReadIs(rest + inputs, u, snapshot, t);
    DroppedNewest(rest, inputs, levels, level, snapshot, u, snapshot, t);
    var kept := Kept(inputs, levels, level, snapshot);
    assert Newest(rest + kept, u, snapshot, p);
    ReadIs(rest + kept, u, snapshot, p);
  }
}
