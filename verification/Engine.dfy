/** The storage engine as a state machine: writes, memtable switches, flushes, compactions and
    snapshots in any order, with a flush allowed to land in the middle of a compaction.

    `history` records every operation ever written.  It is what the machine is measured
    against: at the latest sequence number and at every live snapshot, what a lookup sees must
    be what the history says, although compactions keep dropping entries. */
module Engine {
  import opened Keys
  import opened Reads
  import opened Lsm
  import opened DropRule
  import opened Overlap
  import opened Pick

  /** A running compaction; `base` is its input version. */
  datatype Job = Job(level: nat, in0: set<File>, in1: set<File>, snapshot: nat, base: seq<set<File>>)

  /** `floor` is the largest snapshot number that a finished compaction has worked with. */
  datatype State = State(
    mem: set<Entry>, imm: Option<set<Entry>>, levels: seq<set<File>>,
    lastSequence: nat, nextFile: nat, snapshots: multiset<nat>, job: Option<Job>,
    history: set<Entry>, floor: nat)

  datatype Step =
    | Write(ops: seq<(UserKey, Op)>)
    | SwitchMemTable
    | Flush(level: nat, file: File)
    | FlushEmpty
    | BeginCompaction(started: Job)
    | InstallCompaction(outputs: seq<File>, nextFile: nat)
    | AbandonCompaction
    | TrivialMove(from: nat, moved: File)
    | TakeSnapshot
    | ReleaseSnapshot(number: nat)

  function Immutable(s: State): set<Entry> {
    if s.imm.Some? then s.imm.value else {}
  }

  function Live(s: State): set<Entry> {
    s.mem + Immutable(s) + AllContents(s.levels)
  }

  /** WriteBatchInternal::InsertInto: consecutive sequence numbers in batch order. */
  function Stamp(ops: seq<(UserKey, Op)>, first: nat): set<Entry> {
    set i | 0 <= i < |ops| :: Entry(ops[i].0, first + i, ops[i].1)
  }

  /** A file left behind in either level that shares a user key with an input is newer.  The
      source does not enforce this at levels above 0; see `BoundaryFileBreaksLookup`. */
  ghost predicate Closed(levels: seq<set<File>>, level: nat, in0: set<File>, in1: set<File>)
    requires level + 1 < |levels|
  {
    && (forall f, g :: f in in0 + in1 && g in levels[level] - in0 ==> FileNewer(g, f))
    && (forall f, g :: f in in0 + in1 && g in levels[level + 1] - in1 ==> FileNewer(g, f))
  }

  /** snapshots_.oldest(), or the last sequence number when there is none. */
  ghost predicate OldestSnapshot(s: State, n: nat) {
    && n <= s.lastSequence && (forall x :: x in s.snapshots ==> n <= x)
    && (n == s.lastSequence || n in s.snapshots)
  }

  function Relocate(levels: seq<set<File>>, level: nat, in0: set<File>, in1: set<File>, outs: set<File>): seq<set<File>>
    requires level + 1 < |levels|
  {
    levels[level := levels[level] - in0][level + 1 := levels[level + 1] - in1 + outs]
  }

  ghost predicate ClearTo(levels: seq<set<File>>, level: nat, f: File) {
    forall i, g :: 0 <= i <= level && i < |levels| && g in levels[i] ==> !Overlaps(f, g)
  }

  ghost predicate OutputsOf(outputs: seq<File>, kept: set<Entry>) {
    && Ascending(outputs) && Contents(FileSet(outputs)) == kept
  }

  ghost predicate Next(s: State, step: Step, t: State) {
    match step
    case Write(ops) =>
      && s.lastSequence + |ops| < MAX_SEQUENCE
      && t == s.(mem := s.mem + Stamp(ops, s.lastSequence + 1), history := s.history + Stamp(ops, s.lastSequence + 1),
                 lastSequence := s.lastSequence + |ops|)
    case SwitchMemTable =>
      s.imm.None? && t == s.(imm := Some(s.mem), mem := {})
    case Flush(level, file) =>
      && s.imm.Some? && EntrySet(file.entries) == s.imm.value && file.number == s.nextFile
      && level <= MAX_MEM_COMPACT_LEVEL && level < |s.levels| && (level > 0 ==> ClearTo(s.levels, level, file))
      && t == s.(imm := None, levels := s.levels[level := s.levels[level] + {file}], nextFile := s.nextFile + 1)
    case FlushEmpty =>
      s.imm == Some({}) && t == s.(imm := None, nextFile := s.nextFile + 1)
    case BeginCompaction(j) =>
      && s.job.None? && j.level + 1 < |s.levels| && j.base == s.levels
      && Selected(s.levels, j.level, j.in0, j.in1) && NoGap(j.in0 + j.in1)
      && Closed(s.levels, j.level, j.in0, j.in1) && OldestSnapshot(s, j.snapshot)
      && t == s.(job := Some(j))
    case InstallCompaction(outputs, nextFile) =>
      && s.job.Some? && nextFile >= s.nextFile
      && var j := s.job.value;
      && j.level + 1 < |s.levels|
      && OutputsOf(outputs, Kept(Contents(j.in0 + j.in1), j.base, j.level, j.snapshot))
      && t == s.(levels := Relocate(s.levels, j.level, j.in0, j.in1, FileSet(outputs)), nextFile := nextFile,
                 job := None, floor := if j.snapshot > s.floor then j.snapshot else s.floor)
    case AbandonCompaction =>
      s.job.Some? && t == s.(job := None)
    case TrivialMove(level, f) =>
      && s.job.None? && level + 1 < |s.levels|
      && Selected(s.levels, level, {f}, {}) && Closed(s.levels, level, {f}, {})
      && t == s.(levels := Relocate(s.levels, level, {f}, {}, {f}))
    case TakeSnapshot =>
      t == s.(snapshots := s.snapshots + multiset{s.lastSequence})
    case ReleaseSnapshot(n) =>
      n in s.snapshots && t == s.(snapshots := s.snapshots - multiset{n})
  }

  function Init(): State {
    State({}, None, seq(NUM_LEVELS, _ => {}), 0, 2, multiset{}, None, {}, 0)
  }

  ghost predicate Ordered(s: State) {
    && Unique(s.history) && Live(s) <= s.history && s.lastSequence < MAX_SEQUENCE
    && (forall e :: e in s.history ==> e.sequence <= s.lastSequence)
    && NewerThan(s.mem, Immutable(s)) && NewerThan(s.mem, AllContents(s.levels))
    && NewerThan(Immutable(s), AllContents(s.levels))
    && WellOrdered(s.levels)
    && (forall f :: f in s.levels[0] ==> f.number < s.nextFile)
  }

  ghost predicate Agrees(s: State) {
    && s.floor <= s.lastSequence && (forall x :: x in s.snapshots ==> s.floor <= x <= s.lastSequence)
    && (forall u, n :: n >= s.floor ==> Read(Live(s), u, n) == Read(s.history, u, n))
  }

  ghost predicate Below(f: File, g: File) { Before(Largest(f), Smallest(g)) }

  /** `g` lies on one side of all inputs. */
  ghost predicate OneSide(g: File, inputs: set<File>) {
    (forall f :: f in inputs ==> Below(f, g)) || (forall f :: f in inputs ==> Below(g, f))
  }

  ghost predicate SharesUser(f: File, u: UserKey) {
    exists x :: x in f.entries && x.user == u
  }

  /** No entry below the output level has a key for which the input version promised none. */
  ghost predicate BaseExact(levels: seq<set<File>>, base: seq<set<File>>, level: nat, inputs: set<File>) {
    forall f, e, l, g ::
      f in inputs && e in f.entries && NoDeeperFile(base, level, e.user) && level + 2 <= l < |levels| && g in levels[l]
      ==> !SharesUser(g, e.user)
  }

  ghost predicate JobSound(s: State) {
    s.job.Some? ==>
      && InputsSound(s.job.value, s.levels)
      && s.job.value.snapshot <= s.lastSequence && (forall x :: x in s.snapshots ==> s.job.value.snapshot <= x)
  }

  /** The inputs of a compaction are still there and still a sound choice. */
  ghost predicate InputsSound(j: Job, levels: seq<set<File>>) {
    && j.level + 1 < |levels|
    && j.in0 <= levels[j.level] && j.in1 <= levels[j.level + 1] && NoGap(j.in0 + j.in1)
    && Closed(levels, j.level, j.in0, j.in1)
    && (forall g :: g in levels[j.level + 1] - j.in1 ==> OneSide(g, j.in0 + j.in1))
    && BaseExact(levels, j.base, j.level, j.in0 + j.in1)
  }

  ghost predicate Inv(s: State) {
    Ordered(s) && Agrees(s) && JobSound(s)
  }
}
