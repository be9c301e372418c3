/** Write-ahead logs, tables and the manifest, through crashes and reopenings.

    A log or table file is kept as the set of entries in it; their sequence numbers give the
    order.  A region run under the mutex, a manifest record and the creation of a file are one
    step each, and the process may crash between any two steps.  Appended log records and
    manifest records survive a crash; table files that no manifest names may hold anything. */
module Durability {
  import opened Keys
  import opened Reads
  import Lsm
  import DropRule
  import CompactionMeaning

  type Files = map<nat, set<Entry>>

  /** What the records of the current manifest add up to. */
  datatype Manifest = Manifest(logNumber: nat, nextFile: nat, lastSequence: nat, files: set<nat>)

  datatype Disk = Disk(logs: Files, tables: Files, manifest: Manifest)

  /** A compaction: its input and output tables, and what the drop rule goes by, that is, the
      input version, its level in it and the oldest snapshot. */
  datatype Job = Job(ins: set<nat>, outs: set<nat>, base: seq<set<Lsm.File>>, level: nat, snapshot: nat)

  /** The running process, or how far DBImpl::Recover has come: `todo` holds the log numbers
      not yet replayed and `made` the tables written from those that were. */
  datatype Process =
    | Down
    | Opening(todo: set<nat>, made: set<nat>, nextFile: nat, maxSequence: nat)
    | Up(mem: set<Entry>, imm: Option<set<Entry>>, inflight: set<Entry>, log: nat,
         logNumber: nat, nextFile: nat, lastSequence: nat, files: set<nat>,
         flushed: Option<nat>, job: Option<Job>, failed: bool)

  /** `history`: every entry ever appended to a log.  `dropped`: the entries that committed
      compactions have discarded.  `floor`: the largest snapshot number one has worked with. */
  datatype State = State(disk: Disk, process: Process, history: set<Entry>, dropped: set<Entry>, floor: nat)

  function InTables(tables: Files, files: set<nat>): set<Entry> {
    set n, e | n in files && n in tables && e in tables[n] :: e
  }

  /** The entries of the logs numbered from `lo` up to, but not including, `hi`. */
  function InLogs(logs: Files, lo: nat, hi: nat): set<Entry> {
    set n, e | n in logs && lo <= n < hi && e in logs[n] :: e
  }

  /** The entries that reopening would take from logs, when the manifest says `lo`. */
  function Replayable(logs: Files, lo: nat): set<Entry> {
    set n, e | n in logs && lo <= n && e in logs[n] :: e
  }

  function LogsFrom(logs: Files, lo: nat): set<nat> {
    set n | n in logs && lo <= n
  }

  function Entries(o: Option<set<Entry>>): set<Entry> {
    if o.Some? then o.value else {}
  }

  /** How a manifest write ends.  An error leaves open whether the record reached the file. */
  datatype Outcome = Committed | ErrorWritten | ErrorLost

  datatype Step =
    | Append(batch: set<Entry>)
    | Apply
    | SwitchLog
    | WriteTable
    | CommitFlush(flush: Outcome)
    | BeginJob(started: Job)
    | WriteOutput(content: set<Entry>)
    | CommitJob(install: Outcome)
    | AbandonJob
    | DeleteLog(log: nat)
    | DeleteTable(table: nat)
    | Crash(junk: Files)
    | StartOpen
    | ReplayLog(replayed: nat, parts: Files)
    | FinishOpen(open: Outcome)

  /** A batch takes the sequence numbers just after the last one. */
  ghost predicate Consecutive(batch: set<Entry>, last: nat) {
    && (forall x, y :: x in batch && y in batch && x.sequence == y.sequence ==> x == y)
    && (forall x :: x in batch ==> last < x.sequence <= last + |batch|)
  }

  function Max(a: nat, b: nat): nat { if a < b then b else a }

  function Logged(d: Disk, m: Manifest, o: Outcome): Disk {
    if o.ErrorLost? then d else d.(manifest := m)
  }

  ghost predicate Older(a: set<Entry>, b: set<Entry>) {
    forall x, y :: x in a && y in b ==> x.sequence < y.sequence
  }

  /** A larger number means newer entries. */
  ghost predicate InOrder(files: Files, numbers: set<nat>) {
    forall a, b :: a in numbers && b in numbers && a < b && a in files && b in files ==> Older(files[a], files[b])
  }

  // Steps of a running process

  /** DBImpl::Write, up to and including log_->AddRecord. */
  ghost predicate Appends(s: State, batch: set<Entry>, t: State) {
    var d, p := s.disk, s.process;
    && p.Up? && !p.failed && p.inflight == {} && Consecutive(batch, p.lastSequence) && p.log in d.logs
    && t == s.(disk := d.(logs := d.logs[p.log := d.logs[p.log] + batch]),
               process := p.(inflight := batch), history := s.history + batch)
  }

  /** InsertInto and SetLastSequence. */
  ghost predicate Applies(s: State, t: State) {
    var p := s.process;
    p.Up? && t == s.(process := p.(mem := p.mem + p.inflight, inflight := {}, lastSequence := p.lastSequence + |p.inflight|))
  }

  /** The memtable switch in MakeRoomForWrite; NewWritableFile truncates an existing file. */
  ghost predicate Switches(s: State, t: State) {
    var d, p := s.disk, s.process;
    && p.Up? && !p.failed && p.inflight == {} && p.imm.None?
    && t == s.(disk := d.(logs := d.logs[p.nextFile := {}]),
               process := p.(imm := Some(p.mem), mem := {}, log := p.nextFile, nextFile := p.nextFile + 1))
  }

  /** WriteLevel0Table. */
  ghost predicate WritesTable(s: State, t: State) {
    var d, p := s.disk, s.process;
    && p.Up? && !p.failed && p.imm.Some? && p.flushed.None?
    && t == s.(disk := d.(tables := d.tables[p.nextFile := p.imm.value]),
               process := p.(flushed := Some(p.nextFile), nextFile := p.nextFile + 1))
  }

  /** The end of CompactMemTable: SetLogNumber(logfile_number_) and LogAndApply. */
  ghost predicate CommitsFlush(s: State, o: Outcome, t: State) {
    var d, p := s.disk, s.process;
    && p.Up? && !p.failed && p.flushed.Some?
    && var files := p.files + {p.flushed.value};
    && t == s.(disk := Logged(d, Manifest(p.log, p.nextFile, p.lastSequence, files), o),
               process := if o.Committed? then p.(imm := None, flushed := None, logNumber := p.log, files := files)
                          else p.(failed := true))
  }

  ghost predicate BeginsJob(s: State, j: Job, t: State) {
    var p := s.process;
    && p.Up? && !p.failed && p.flushed.None? && p.job.None?
    && j.ins <= p.files && j.outs == {} && j.snapshot <= p.lastSequence
    && t == s.(process := p.(job := Some(j)))
  }

  /** One output table; no entry is written twice. */
  ghost predicate WritesOutput(s: State, content: set<Entry>, t: State) {
    var d, p := s.disk, s.process;
    && p.Up? && !p.failed && p.job.Some?
    && var j := p.job.value;
    && content <= InTables(d.tables, j.ins) && content !! InTables(d.tables, j.outs)
    && t == s.(disk := d.(tables := d.tables[p.nextFile := content]),
               process := p.(job := Some(j.(outs := j.outs + {p.nextFile})), nextFile := p.nextFile + 1))
  }

  /** The outputs are what the drop rule keeps of the inputs, and it discards no deletion marker
      that still hides something; `EngineProofs.NothingExposed` is that of the engine. */
  ghost predicate DropsRightly(tables: Files, others: set<Entry>, j: Job) {
    var inputs := InTables(tables, j.ins);
    && InTables(tables, j.outs) == DropRule.Kept(inputs, j.base, j.level, j.snapshot)
    && forall u :: !CompactionMeaning.Exposed(others, inputs, j.base, j.level, j.snapshot, u)
  }

  /** InstallCompactionResults: LogAndApply keeps the log number. */
  ghost predicate CommitsJob(s: State, o: Outcome, t: State) {
    var d, p := s.disk, s.process;
    && p.Up? && !p.failed && p.flushed.None? && p.job.Some?
    && var j := p.job.value;
    && DropsRightly(d.tables, InTables(d.tables, p.files - j.ins) + Replayable(d.logs, p.logNumber), j)
    && var files := p.files - j.ins + j.outs;
    && t == s.(disk := Logged(d, Manifest(p.logNumber, p.nextFile, p.lastSequence, files), o),
               process := if o.Committed? then p.(files := files, job := None) else p.(failed := true),
               dropped := if o.ErrorLost? then s.dropped else s.dropped + (InTables(d.tables, j.ins) - InTables(d.tables, j.outs)),
               floor := if o.ErrorLost? then s.floor else Max(s.floor, j.snapshot))
  }

  ghost predicate AbandonsJob(s: State, t: State) {
    s.process.Up? && t == s.(process := s.process.(job := None))
  }

  /** DeleteObsoleteFiles, file by file; it does nothing once an error is on record. */
  ghost predicate DeletesLog(s: State, n: nat, t: State) {
    var d, p := s.disk, s.process;
    p.Up? && !p.failed && p.flushed.None? && n < p.logNumber && t == s.(disk := d.(logs := d.logs - {n}))
  }

  ghost predicate DeletesTable(s: State, n: nat, t: State) {
    var d, p := s.disk, s.process;
    && p.Up? && !p.failed && p.flushed.None? && n !in p.files && (p.job.Some? ==> n !in p.job.value.outs)
    && t == s.(disk := d.(tables := d.tables - {n}))
  }

  ghost predicate Crashes(s: State, junk: Files, t: State) {
    var d := s.disk;
    && junk.Keys !! d.manifest.files
    && t == s.(disk := d.(tables := (d.tables - (d.tables.Keys - d.manifest.files)) + junk), process := Down)
  }

  // Reopening

  /** VersionSet::Recover, then the list of logs numbered at or above the manifest's. */
  ghost predicate StartsOpen(s: State, t: State) {
    var d := s.disk;
    && s.process.Down?
    && t == s.(process := Opening(LogsFrom(d.logs, d.manifest.logNumber), {}, d.manifest.nextFile + 1, 0))
  }

  /** RecoverLogFile, lowest number first: one table for each memtable it fills, and then
      MarkFileNumberUsed for the log. */
  ghost predicate Replays(s: State, n: nat, parts: Files, t: State) {
    var d, p, q := s.disk, s.process, t.process;
    && p.Opening? && n in p.todo && (forall m :: m in p.todo ==> n <= m) && n in d.logs
    && InTables(parts, parts.Keys) == d.logs[n] && InOrder(parts, parts.Keys)
    && t == s.(disk := d.(tables := d.tables + parts), process := q)
    && q.Opening? && q.todo == p.todo - {n} && q.made == p.made + parts.Keys
    && (forall k :: k in parts ==> p.nextFile <= k < q.nextFile) && n < q.nextFile && p.nextFile <= q.nextFile
    && q.maxSequence >= p.maxSequence && (forall e :: e in d.logs[n] ==> e.sequence <= q.maxSequence)
  }

  /** DB::Open: LastSequence raised to the largest replayed, a new log, and LogAndApply. */
  ghost predicate FinishesOpen(s: State, o: Outcome, t: State) {
    var d, p := s.disk, s.process;
    && p.Opening? && p.todo == {}
    && var d' := d.(logs := d.logs[p.nextFile := {}]);
    && var m := Manifest(p.nextFile, p.nextFile + 1, Max(d.manifest.lastSequence, p.maxSequence), d.manifest.files + p.made);
    && t == s.(disk := Logged(d', m, o),
               process := if o.Committed?
                          then Up({}, None, {}, m.logNumber, m.logNumber, m.nextFile, m.lastSequence, m.files, None, None, false)
                          else Down)
  }

  ghost predicate Next(s: State, step: Step, t: State) {
    match step
    case Append(batch) => Appends(s, batch, t)
    case Apply => Applies(s, t)
    case SwitchLog => Switches(s, t)
    case WriteTable => WritesTable(s, t)
    case CommitFlush(o) => CommitsFlush(s, o, t)
    case BeginJob(j) => BeginsJob(s, j, t)
    case WriteOutput(content) => WritesOutput(s, content, t)
    case CommitJob(o) => CommitsJob(s, o, t)
    case AbandonJob => AbandonsJob(s, t)
    case DeleteLog(n) => DeletesLog(s, n, t)
    case DeleteTable(n) => DeletesTable(s, n, t)
    case Crash(junk) => Crashes(s, junk, t)
    case StartOpen => StartsOpen(s, t)
    case ReplayLog(n, parts) => Replays(s, n, parts, t)
    case FinishOpen(o) => FinishesOpen(s, o, t)
  }

  /** NewDB: an empty manifest. */
  function NewDatabase(): State {
    State(Disk(map[], map[], Manifest(0, 2, 0, {})), Down, {}, {}, 0)
  }

  // The invariant

  /** What is true of the files no matter when the process stops. */
  ghost predicate DiskSound(d: Disk, history: set<Entry>, dropped: set<Entry>, floor: nat) {
    var m := d.manifest;
    var tabled, logged := InTables(d.tables, m.files), Replayable(d.logs, m.logNumber);
    && Named(d.tables, m.files, m.nextFile) && m.logNumber < m.nextFile
    && InOrder(d.logs, LogsFrom(d.logs, m.logNumber)) && Separate(d.tables, m.files)
    && Faithful(history, dropped, tabled, logged, m.lastSequence, floor)
  }

  ghost predicate Faithful(history: set<Entry>, dropped: set<Entry>, tabled: set<Entry>, logged: set<Entry>, lastSequence: nat, floor: nat) {
    Complete(history, dropped, tabled, logged, lastSequence) && Agrees(history, tabled + logged, floor) && floor <= lastSequence
  }

  /** No entry is in two of the tables. */
  ghost predicate Separate(tables: Files, files: set<nat>) {
    forall a, b :: a in files && b in files && a != b && a in tables && b in tables ==> tables[a] !! tables[b]
  }

  /** Every key reads in `live`, at every sequence number from `floor` on, as in the history. */
  ghost predicate Agrees(history: set<Entry>, live: set<Entry>, floor: nat) {
    forall u, n :: n >= floor ==> Read(live, u, n) == Read(history, u, n)
  }

  ghost predicate Named(tables: Files, files: set<nat>, nextFile: nat) {
    files <= tables.Keys && forall n :: n in files ==> n < nextFile
  }

  /** Every entry ever logged is dropped, in a table of the manifest, or in a log that will be
      replayed, and nothing is both in a table and replayed. */
  ghost predicate Complete(history: set<Entry>, dropped: set<Entry>, tabled: set<Entry>, logged: set<Entry>, lastSequence: nat) {
    && history == dropped + tabled + logged
    && (forall x, y :: x in history && y in history && x.sequence == y.sequence ==> x == y)
    && (forall x :: x in dropped + tabled ==> x.sequence <= lastSequence)
    && Older(dropped + tabled, logged)
  }

  ghost predicate LogsSound(logs: Files, log: nat, logNumber: nat, nextFile: nat, current: set<Entry>, imm: set<Entry>) {
    && log in logs && logNumber <= log < nextFile && (forall n :: n in logs ==> n <= log)
    && current == logs[log] && imm == InLogs(logs, logNumber, log)
  }

  ghost predicate FlushSound(tables: Files, files: set<nat>, nextFile: nat, imm: Option<set<Entry>>, flushed: Option<nat>) {
    flushed.Some? ==>
      && imm.Some? && flushed.value in tables && tables[flushed.value] == imm.value
      && flushed.value !in files && flushed.value < nextFile
  }

  ghost predicate JobSound(tables: Files, files: set<nat>, nextFile: nat, last: nat, flushed: Option<nat>, job: Option<Job>) {
    job.Some? ==>
      var j := job.value;
      && j.ins <= files && j.outs !! files && Named(tables, j.outs, nextFile)
      && InTables(tables, j.outs) <= InTables(tables, j.ins) && Separate(tables, j.outs)
      && j.snapshot <= last && (flushed.Some? ==> flushed.value !in j.outs)
  }

  ghost predicate Numbered(history: set<Entry>, inflight: set<Entry>, last: nat) {
    Consecutive(inflight, last) && forall e :: e in history ==> e.sequence <= last || e in inflight
  }

  ghost predicate UpSound(d: Disk, p: Process, history: set<Entry>)
    requires p.Up?
  {
    var m := d.manifest;
    && LogsSound(d.logs, p.log, p.logNumber, p.nextFile, p.mem + p.inflight, Entries(p.imm))
    && Named(d.tables, p.files, p.nextFile) && m.nextFile <= p.nextFile
    && Numbered(history, p.inflight, p.lastSequence)
    && (!p.failed ==> m.files == p.files && m.logNumber == p.logNumber && m.lastSequence <= p.lastSequence)
    && FlushSound(d.tables, p.files, p.nextFile, p.imm, p.flushed)
    && JobSound(d.tables, p.files, p.nextFile, p.lastSequence, p.flushed, p.job)
  }

  function Replayed(logs: Files, lo: nat, todo: set<nat>): set<Entry> {
    set n, e | n in logs && lo <= n && n !in todo && e in logs[n] :: e
  }

  ghost predicate OpeningSound(d: Disk, p: Process)
    requires p.Opening?
  {
    var m := d.manifest;
    && m.nextFile < p.nextFile && p.todo <= LogsFrom(d.logs, m.logNumber)
    && (forall n :: n in d.logs && m.logNumber <= n && n !in p.todo ==> n < p.nextFile && forall k :: k in p.todo ==> n < k)
    && Named(d.tables, p.made, p.nextFile) && (forall n :: n in p.made ==> m.nextFile <= n)
    && InTables(d.tables, p.made) == Replayed(d.logs, m.logNumber, p.todo) && InOrder(d.tables, p.made)
    && (forall e :: e in Replayed(d.logs, m.logNumber, p.todo) ==> e.sequence <= p.maxSequence)
  }

  ghost predicate Inv(s: State) {
    && DiskSound(s.disk, s.history, s.dropped, s.floor)
    && (s.process.Up? ==> UpSound(s.disk, s.process, s.history))
    && (s.process.Opening? ==> OpeningSound(s.disk, s.process))
  }
}
