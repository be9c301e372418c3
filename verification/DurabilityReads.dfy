/** What survives crashes, key by key: the last of all writes that reached a log. */
module DurabilityReads {
  import opened Keys
  import opened Reads
  import Engine
  import opened EngineReads
  import opened Durability
  import opened DurabilityProofs

  /** The operations of a run: `ops[i]` are those of the batch that step `i` logs, and the batch numbers
      them in order behind the last sequence number. */
  ghost predicate Logs(states: seq<State>, steps: seq<Step>, ops: seq<Ops>) {
    && |states| == |steps| + 1 && |ops| == |steps|
    && forall i :: 0 <= i < |steps| ==> LogsAt(states[i], steps[i], ops[i])
  }

  ghost predicate LogsAt(s: State, step: Step, ops: Ops) {
    if step.Append? then s.process.Up? && step.batch == Engine.Stamp(ops, s.process.lastSequence + 1) else ops == []
  }

  function Joined(ops: seq<Ops>): Ops {
    if ops == [] then [] else Joined(ops[..|ops| - 1]) + ops[|ops| - 1]
  }

  lemma {:induction false} AfterSplit(before: Option<Bytes>, a: Ops, b: Ops, u: UserKey)
    ensures After(before, a + b, u) == After(After(before, a, u), b, u)
    decreases |b|
  {
    if b == [] {
      assert a + b == a;
    } else {
      assert (a + b)[..|a + b| - 1] == a + b[..|b| - 1];
      AfterSplit(before, a, b[..|b| - 1], u);
    }
  }

  /** Above all sequence numbers it does not matter where one reads. */
  lemma ReadAbove(entries: set<Entry>, u: UserKey, m: nat, n: nat)
    requires UpTo(entries, m) && UpTo(entries, n)
    ensures Read(entries, u, m) == Read(entries, u, n)
  {
    SameUpTo(entries, {}, u, m, if m <= n then n else m);
    SameUpTo(entries, {}, u, n, if m <= n then n else m);
    assert entries + {} == entries;
  }

  function Added(step: Step): set<Entry> {
    if step.Append? then step.batch else {}
  }

  lemma HistoryStep(s: State, step: Step, t: State)
    requires Next(s, step, t)
    ensures t.history == s.history + Added(step)
    ensures step.Append? ==> s.process.Up? && s.process.inflight == {}
  {
  }

  lemma IdleUpTo(s: State)
    requires Inv(s) && s.process.Up? && s.process.inflight == {}
    ensures UpTo(s.history, s.process.lastSequence)
  {
  }

  lemma RunStep(states: seq<State>, steps: seq<Step>, n: nat)
    requires Run(states, steps) && n < |steps|
    ensures states[n + 1].history == states[n].history + Added(steps[n])
    ensures steps[n].Append? ==> states[n].process.Up? && UpTo(states[n].history, states[n].process.lastSequence)
  {
    RunKeepsInv(states, steps, n);
    HistoryStep(states[n], steps[n], states[n + 1]);
    if steps[n].Append? {
      IdleUpTo(states[n]);
    }
  }

  /** One batch more in the history. */
  lemma BatchReads(history: set<Entry>, batch: set<Entry>, ops: Ops, last: nat, u: UserKey, high: nat)
    requires UpTo(history, last) && batch == Engine.Stamp(ops, last + 1) && UpTo(history + batch, high)
    ensures Read(history + batch, u, high) == After(Read(history, u, last), ops, u)
  {
    assert ops[..|ops|] == ops;
    ReadStamped(history, history + batch, ops, last, u, |ops|);
    StampUnique(history, ops, last);
    ReadAbove(history + batch, u, high, last + |ops|);
  }

  /** What a step does to the history: nothing, or these operations numbered behind `last`. */
  ghost predicate Extends(history: set<Entry>, history': set<Entry>, ops: Ops, last: Option<nat>) {
    if last.None? then history' == history && ops == []
    else UpTo(history, last.value) && history' == history + Engine.Stamp(ops, last.value + 1)
  }

  function Last(s: State, step: Step): Option<nat> {
    if step.Append? && s.process.Up? then Some(s.process.lastSequence) else None
  }

  lemma OneExtends(s: State, step: Step, ops: Ops, t: State)
    requires t.history == s.history + Added(step) && LogsAt(s, step, ops)
    requires step.Append? ==> UpTo(s.history, s.process.lastSequence)
    ensures Extends(s.history, t.history, ops, Last(s, step))
  {
  }

  /** `before` is where the history can be read ahead of the step. */
  lemma ExtensionReads(history: set<Entry>, history': set<Entry>, ops: Ops, last: Option<nat>, u: UserKey, high: nat) returns (before: nat)
    requires Extends(history, history', ops, last) && UpTo(history', high)
    ensures UpTo(history, before) && Read(history', u, high) == After(Read(history, u, before), ops, u)
  {
    if last.Some? {
      before := last.value;
      BatchReads(history, Engine.Stamp(ops, before + 1), ops, before, u, high);
    } else {
      before := high;
    }
  }

  /** The histories of a run, step by step. */
  ghost predicate Grows(histories: seq<set<Entry>>, ops: seq<Ops>, lasts: seq<Option<nat>>) {
    && |histories| == |ops| + 1 && |lasts| == |ops| && histories[0] == {}
    && forall i :: 0 <= i < |ops| ==> Extends(histories[i], histories[i + 1], ops[i], lasts[i])
  }

  lemma {:induction false} GrowsReads(histories: seq<set<Entry>>, ops: seq<Ops>, lasts: seq<Option<nat>>, n: nat, u: UserKey, high: nat)
    requires Grows(histories, ops, lasts) && n < |histories| && UpTo(histories[n], high)
    ensures Read(histories[n], u, high) == After(None, Joined(ops[..n]), u)
  {
    if n > 0 {
      assert Extends(histories[n - 1], histories[n], ops[n - 1], lasts[n - 1]);
      var before := ExtensionReads(histories[n - 1], histories[n], ops[n - 1], lasts[n - 1], u, high);
      GrowsReads(histories, ops, lasts, n - 1, u, before);
      assert ops[..n][..n - 1] == ops[..n - 1];
      AfterSplit(None, Joined(ops[..n - 1]), ops[n - 1], u);
    }
  }

  ghost function Histories(states: seq<State>): seq<set<Entry>> {
    seq(|states|, i requires 0 <= i < |states| => states[i].history)
  }

  function Lasts(states: seq<State>, steps: seq<Step>): seq<Option<nat>>
    requires |states| == |steps| + 1
  {
    seq(|steps|, i requires 0 <= i < |steps| => Last(states[i], steps[i]))
  }

  lemma RunGrows(states: seq<State>, steps: seq<Step>, ops: seq<Ops>)
    requires Run(states, steps) && Logs(states, steps, ops)
    ensures Grows(Histories(states), ops, Lasts(states, steps))
  {
    forall i | 0 <= i < |ops|
      ensures Extends(states[i].history, states[i + 1].history, ops[i], Last(states[i], steps[i]))
    {
      RunStep(states, steps, i);
      OneExtends(states[i], steps[i], ops[i], states[i + 1]);
    }
  }

  /** The history of a run reads as its operations, applied in the order they were logged. */
  lemma HistoryReads(states: seq<State>, steps: seq<Step>, ops: seq<Ops>, n: nat, u: UserKey, high: nat)
    requires Run(states, steps) && Logs(states, steps, ops) && n < |states| && UpTo(states[n].history, high)
    ensures Read(states[n].history, u, high) == After(None, Joined(ops[..n]), u)
  {
    RunGrows(states, steps, ops);
    GrowsReads(Histories(states), ops, Lasts(states, steps), n, u, high);
  }

  /** After reopening, whatever crashes came before, every key reads from the tables as the last of all
      operations that were ever logged on it left it. */
  lemma ReopenedReadsLastWrite(states: seq<State>, steps: seq<Step>, ops: seq<Ops>, n: nat, u: UserKey)
    requires Run(states, steps) && Logs(states, steps, ops) && n < |steps| && steps[n] == FinishOpen(Committed)
    ensures var t := states[n + 1];
            && t.process.Up?
            && Read(InTables(t.disk.tables, t.process.files), u, t.process.lastSequence) == After(None, Joined(ops[..n + 1]), u)
  {
    ReopeningRebuilds(states, steps, n);
    HistoryUpTo(states, steps, n + 1);
    HistoryReads(states, steps, ops, n + 1, u, states[n + 1].process.lastSequence);
  }

  lemma HistoryUpTo(states: seq<State>, steps: seq<Step>, n: nat)
    requires Run(states, steps) && n < |states| && states[n].process.Up? && states[n].process.inflight == {}
    ensures UpTo(states[n].history, states[n].process.lastSequence)
  {
    RunKeepsInv(states, steps, n);
    IdleUpTo(states[n]);
  }

  /** The same of a healthy process between two writes, from its memory and its tables. */
  lemma RunningReadsLastWrite(states: seq<State>, steps: seq<Step>, ops: seq<Ops>, n: nat, u: UserKey)
    requires Run(states, steps) && Logs(states, steps, ops) && n < |states|
    requires states[n].process.Up? && !states[n].process.failed && states[n].process.inflight == {}
    ensures var s, p := states[n], states[n].process;
            Read(InTables(s.disk.tables, p.files) + Entries(p.imm) + p.mem, u, p.lastSequence) == After(None, Joined(ops[..n]), u)
  {
    MemoryIsComplete(states, steps, n);
    HistoryUpTo(states, steps, n);
    HistoryReads(states, steps, ops, n, u, states[n].process.lastSequence);
  }
}
