/** What a caller of the database sees: the last write of a key wins, within a batch and over whole
    runs.  Nothing here speaks of sequence numbers except as the number of operations so far. */
module EngineReads {
  import opened Keys
  import opened Reads
  import opened Lsm
  import opened Searching
  import opened Engine
  import opened EngineProofs
  import Lookup

  type Ops = seq<(UserKey, Op)>

  function ValueAfter(op: Op): Option<Bytes> {
    match op case Put(v) => Some(v) case Delete => None
  }

  /** The value of `u` after these operations, when it was `before` at first. */
  function After(before: Option<Bytes>, ops: Ops, u: UserKey): Option<Bytes> {
    if ops == [] then before
    else if ops[|ops| - 1].0 == u then ValueAfter(ops[|ops| - 1].1)
    else After(before, ops[..|ops| - 1], u)
  }

  predicate LastOf(ops: Ops, i: int) {
    0 <= i < |ops| && forall j :: i < j < |ops| ==> ops[j].0 != ops[i].0
  }

  predicate Untouched(ops: Ops, u: UserKey) {
    forall j :: 0 <= j < |ops| ==> ops[j].0 != u
  }

  /** The last operation on a key decides ... */
  lemma {:induction false} LastDecides(before: Option<Bytes>, ops: Ops, i: nat)
    requires LastOf(ops, i)
    ensures After(before, ops, ops[i].0) == ValueAfter(ops[i].1)
  {
    if i < |ops| - 1 {
      LastDecides(before, ops[..|ops| - 1], i);
    }
  }

  /** ... and without one the key is as before. */
  lemma {:induction false} NoneDecides(before: Option<Bytes>, ops: Ops, u: UserKey)
    requires Untouched(ops, u)
    ensures After(before, ops, u) == before
  {
    if ops != [] {
      NoneDecides(before, ops[..|ops| - 1], u);
    }
  }

  lemma {:induction false} LastIndex(ops: Ops, u: UserKey) returns (i: nat)
    requires !Untouched(ops, u)
    ensures LastOf(ops, i) && ops[i].0 == u
  {
    var n := |ops| - 1;
    if ops[n].0 == u {
      i := n;
    } else {
      assert !Untouched(ops[..n], u);
      i := LastIndex(ops[..n], u);
    }
  }

  /** A database whose entries are all numbered up to `last`. */
  ghost predicate UpTo(base: set<Entry>, last: nat) {
    Unique(base) && forall e :: e in base ==> e.sequence <= last
  }

  lemma StampUnique(base: set<Entry>, ops: Ops, last: nat)
    requires UpTo(base, last)
    ensures UpTo(base + Stamp(ops, last + 1), last + |ops|)
  {
    StampFacts(ops, last);
  }

  /** The last of the first `k` operations on a key is what a reader of these finds. */
  lemma NewestStamped(base: set<Entry>, ops: Ops, last: nat, k: nat, i: nat)
    requires UpTo(base, last) && k <= |ops| && LastOf(ops[..k], i)
    ensures Newest(base + Stamp(ops, last + 1), ops[i].0, last + k, Entry(ops[i].0, last + 1 + i, ops[i].1))
  {
    var added := Stamp(ops, last + 1);
    assert Entry(ops[i].0, last + 1 + i, ops[i].1) in added;
    forall x | x in added && Visible(x, ops[i].0, last + k)
      ensures x.sequence <= last + 1 + i
    {
      var j :| 0 <= j < |ops| && x == Entry(ops[j].0, last + 1 + j, ops[j].1);
    }
  }

  lemma NoneStamped(ops: Ops, last: nat, u: UserKey, k: nat)
    requires k <= |ops| && Untouched(ops[..k], u)
    ensures NoneVisible(Stamp(ops, last + 1), u, last + k)
  {
    var added := Stamp(ops, last + 1);
    forall x | x in added
      ensures !Visible(x, u, last + k)
    {
      var j :| 0 <= j < |ops| && x == Entry(ops[j].0, last + 1 + j, ops[j].1);
      assert j < k ==> ops[..k][j].0 != u;
    }
  }

  /** Added entries that a later reader cannot see, or that have another key, leave the read alone. */
  lemma SameUpTo(base: set<Entry>, added: set<Entry>, u: UserKey, last: nat, n: nat)
    requires Unique(base + added) && last <= n && NoneVisible(added, u, n) && UpTo(base, last)
    ensures Read(base + added, u, n) == Read(base, u, last)
  {
    SameVisible(base, added, u, n);
    NewestExists(base, u, n);
    if !NoneVisible(base, u, n) {
      var e :| Newest(base, u, n, e);
      assert Newest(base, u, last, e);
      ReadIs(base, u, n, e);
      ReadIs(base, u, last, e);
    } else {
      assert NoneVisible(base, u, last);
    }
  }

  lemma ReadNewest(base: set<Entry>, all: set<Entry>, ops: Ops, last: nat, k: nat, i: nat)
    requires UpTo(base, last) && k <= |ops| && LastOf(ops[..k], i) && all == base + Stamp(ops, last + 1)
    ensures Read(all, ops[i].0, last + k) == ValueAfter(ops[i].1)
  {
    StampUnique(base, ops, last);
    NewestStamped(base, ops, last, k, i);
    ReadIs(all, ops[i].0, last + k, Entry(ops[i].0, last + 1 + i, ops[i].1));
  }

  /** Reading the entries of numbered operations. */
  lemma ReadStamped(base: set<Entry>, all: set<Entry>, ops: Ops, last: nat, u: UserKey, k: nat)
    requires k <= |ops| && UpTo(base, last) && all == base + Stamp(ops, last + 1)
    ensures Read(all, u, last + k) == After(Read(base, u, last), ops[..k], u)
  {
    var added, before := Stamp(ops, last + 1), Read(base, u, last);
    StampUnique(base, ops, last);
    if Untouched(ops[..k], u) {
      NoneDecides(before, ops[..k], u);
      NoneStamped(ops, last, u, k);
      SameUpTo(base, added, u, last, last + k);
    } else {
      var i := LastIndex(ops[..k], u);
      LastDecides(before, ops[..k], i);
      ReadNewest(base, all, ops, last, k, i);
    }
  }

  lemma ReadLastStamped(base: set<Entry>, all: set<Entry>, ops: Ops, last: nat, i: nat)
    requires UpTo(base, last) && all == base + Stamp(ops, last + 1) && LastOf(ops, i)
    ensures Read(all, ops[i].0, last + |ops|) == ValueAfter(ops[i].1)
  {
    assert ops[..|ops|] == ops;
    ReadNewest(base, all, ops, last, |ops|, i);
  }

  lemma ReadUntouched(base: set<Entry>, all: set<Entry>, ops: Ops, last: nat, u: UserKey)
    requires UpTo(base, last) && all == base + Stamp(ops, last + 1) && Untouched(ops, u)
    ensures Read(all, u, last + |ops|) == Read(base, u, last)
  {
    assert ops[..|ops|] == ops;
    NoneDecides(Read(base, u, last), ops, u);
    ReadStamped(base, all, ops, last, u, |ops|);
  }

  /** Every reachable state is one. */
  lemma InvUpTo(s: State)
    requires Inv(s)
    ensures UpTo(Live(s), s.lastSequence)
  {
  }

  /** A batch takes effect operation by operation, in batch order, on top of what was there: at the
      sequence number of its k-th operation a reader sees the first k. */
  lemma BatchInOrder(s: State, ops: Ops, t: State, u: UserKey, k: nat)
    requires UpTo(Live(s), s.lastSequence) && Next(s, Write(ops), t) && k <= |ops|
    ensures Read(Live(t), u, s.lastSequence + k) == After(Read(Live(s), u, s.lastSequence), ops[..k], u)
    ensures t.lastSequence == s.lastSequence + |ops|
  {
    ReadStamped(Live(s), Live(t), ops, s.lastSequence, u, k);
  }

  /** After a write, every key of the batch reads as the last operation on it left it ... */
  lemma WriteThenRead(s: State, ops: Ops, t: State, i: nat)
    requires UpTo(Live(s), s.lastSequence) && Next(s, Write(ops), t) && LastOf(ops, i)
    ensures t.lastSequence == s.lastSequence + |ops|
    ensures Read(Live(t), ops[i].0, s.lastSequence + |ops|) == ValueAfter(ops[i].1)
  {
    ReadLastStamped(Live(s), Live(t), ops, s.lastSequence, i);
  }

  /** ... every other key as before ... */
  lemma WriteKeepsTheRest(s: State, ops: Ops, t: State, u: UserKey)
    requires UpTo(Live(s), s.lastSequence) && Next(s, Write(ops), t) && Untouched(ops, u)
    ensures t.lastSequence == s.lastSequence + |ops|
    ensures Read(Live(t), u, s.lastSequence + |ops|) == Read(Live(s), u, s.lastSequence)
  {
    ReadUntouched(Live(s), Live(t), ops, s.lastSequence, u);
  }

  /** ... and readers at earlier sequence numbers see no change. */
  lemma WriteKeepsThePast(s: State, ops: Ops, t: State, u: UserKey, n: nat)
    requires UpTo(Live(s), s.lastSequence) && Next(s, Write(ops), t) && n <= s.lastSequence
    ensures Read(Live(t), u, n) == Read(Live(s), u, n)
  {
    EarlierReads(Live(s), Live(t), ops, s.lastSequence, u, n);
  }

  lemma EarlierReads(base: set<Entry>, all: set<Entry>, ops: Ops, last: nat, u: UserKey, n: nat)
    requires n <= last && UpTo(base, last) && all == base + Stamp(ops, last + 1)
    ensures Read(all, u, n) == Read(base, u, n)
  {
    StampFacts(ops, last);
    StampUnique(base, ops, last);
    SameVisible(base, Stamp(ops, last + 1), u, n);
  }

  // Whole runs

  /** All operations written, in order. */
  function Written(steps: seq<Step>): Ops {
    if steps == [] then []
    else Written(steps[..|steps| - 1]) + OpsOf(steps[|steps| - 1])
  }

  lemma StampTwo(a: Ops, b: Ops, first: nat)
    ensures Stamp(a + b, first) == Stamp(a, first) + Stamp(b, first + |a|)
  {
    forall e | e in Stamp(b, first + |a|)
      ensures e in Stamp(a + b, first)
    {
      var i :| 0 <= i < |b| && e == Entry(b[i].0, first + |a| + i, b[i].1);
      assert (a + b)[|a| + i] == b[i];
    }
    forall e | e in Stamp(a, first)
      ensures e in Stamp(a + b, first)
    {
      var i :| 0 <= i < |a| && e == Entry(a[i].0, first + i, a[i].1);
      assert (a + b)[i] == a[i];
    }
  }

  function OpsOf(step: Step): Ops {
    if step.Write? then step.ops else []
  }

  lemma StepWrites(s: State, step: Step, t: State)
    requires Next(s, step, t)
    ensures t.history == s.history + Stamp(OpsOf(step), s.lastSequence + 1)
    ensures t.lastSequence == s.lastSequence + |OpsOf(step)|
  {
    assert !step.Write? ==> Stamp(OpsOf(step), s.lastSequence + 1) == {};
  }

  lemma RunWrites(states: seq<State>, steps: seq<Step>, n: nat, ops: Ops)
    requires Run(states, steps) && 0 < n < |states|
    requires states[n - 1].history == Stamp(ops, 1) && states[n - 1].lastSequence == |ops|
    ensures states[n].history == Stamp(ops + OpsOf(steps[n - 1]), 1) && states[n].lastSequence == |ops + OpsOf(steps[n - 1])|
  {
    StepWrites(states[n - 1], steps[n - 1], states[n]);
    StampTwo(ops, OpsOf(steps[n - 1]), 1);
  }

  lemma WrittenSnoc(steps: seq<Step>, n: nat)
    requires 0 < n <= |steps|
    ensures Written(steps[..n]) == Written(steps[..n - 1]) + OpsOf(steps[n - 1])
  {
    assert steps[..n][..n - 1] == steps[..n - 1];
  }

  /** The history is all operations written, numbered in order from 1. */
  lemma {:induction false} HistoryIsWritten(states: seq<State>, steps: seq<Step>, n: nat)
    requires Run(states, steps) && n < |states|
    ensures states[n].history == Stamp(Written(steps[..n]), 1) && states[n].lastSequence == |Written(steps[..n])|
  {
    if n > 0 {
      HistoryIsWritten(states, steps, n - 1);
      RunWrites(states, steps, n, Written(steps[..n - 1]));
      WrittenSnoc(steps, n);
    }
  }

  /** In every state of every run, a key reads at the latest sequence number as the last of all
      writes on it left it, and at a live snapshot as the last of those before the snapshot did,
      whatever was flushed and compacted meanwhile. */
  lemma LastWriteWins(states: seq<State>, steps: seq<Step>, n: nat, u: UserKey, snapshot: nat)
    requires Run(states, steps) && n < |states|
    requires snapshot == states[n].lastSequence || snapshot in states[n].snapshots
    ensures snapshot <= |Written(steps[..n])| && states[n].lastSequence == |Written(steps[..n])|
    ensures Read(Live(states[n]), u, snapshot) == After(None, Written(steps[..n])[..snapshot], u)
  {
    HistoryIsWritten(states, steps, n);
    SnapshotInRange(states, steps, n, snapshot);
    RunReadsHistory(states, steps, n, u, snapshot);
    ReadHistory(states[n].history, Written(steps[..n]), u, snapshot);
  }

  lemma SnapshotInRange(states: seq<State>, steps: seq<Step>, n: nat, snapshot: nat)
    requires Run(states, steps) && n < |states|
    requires snapshot == states[n].lastSequence || snapshot in states[n].snapshots
    ensures snapshot <= states[n].lastSequence
  {
    RunKeepsInv(states, steps, n);
  }

  lemma ReadHistory(history: set<Entry>, ops: Ops, u: UserKey, k: nat)
    requires history == Stamp(ops, 1) && k <= |ops|
    ensures Read(history, u, k) == After(None, ops[..k], u)
  {
    ReadStamped({}, history, ops, 0, u, k);
    assert Read({}, u, 0) == None;
  }

  /** DBImpl::Get run in a reachable state, level by level: it answers with the last write of the
      key, of all or of those before the snapshot. */
  method GetInRun(ghost states: seq<State>, ghost steps: seq<Step>, ghost n: nat,
                  mem: seq<Entry>, imm: seq<Entry>, v: seq<seq<File>>, u: UserKey, snapshot: nat)
    returns (value: Option<Bytes>)
    requires Run(states, steps) && n < |states|
    requires snapshot == states[n].lastSequence || snapshot in states[n].snapshots
    requires Sorted(mem) && EntrySet(mem) == states[n].mem
    requires Sorted(imm) && EntrySet(imm) == Immutable(states[n])
    requires Lists(v, states[n].levels)
    ensures snapshot <= |Written(steps[..n])| && value == After(None, Written(steps[..n])[..snapshot], u)
  {
    RunKeepsInv(states, steps, n);
    LastWriteWins(states, steps, n, u, snapshot);
    ghost var s := states[n];
    assert Live(s) == EntrySet(mem) + EntrySet(imm) + AllContents(s.levels);
    LayersInAgeOrder(s.mem, Immutable(s), s.levels);
    value := Lookup.Get(mem, imm, v, s.levels, u, snapshot);
  }
}
