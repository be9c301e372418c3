/** Nothing appended to a log is ever lost: whatever the interleaving of writes, flushes,
    compactions, deletions, failed manifest writes, crashes and reopenings. */
module DurabilityProofs {
  import opened Keys
  import opened Reads
  import opened Durability
  import DropRule
  import CompactionMeaning

  lemma TablesFrame(tables: Files, tables': Files, files: set<nat>)
    requires forall n :: n in files ==> (n in tables <==> n in tables') && (n in tables ==> tables[n] == tables'[n])
    ensures InTables(tables, files) == InTables(tables', files)
  {
    forall n, e | n in files && n in tables && e in tables[n]
      ensures e in InTables(tables', files)
    {
      assert e in tables'[n];
    }
    forall n, e | n in files && n in tables' && e in tables'[n]
      ensures e in InTables(tables, files)
    {
      assert e in tables[n];
    }
  }

  lemma LogsFrame(logs: Files, logs': Files, lo: nat, hi: nat)
    requires forall n :: lo <= n < hi ==> (n in logs <==> n in logs') && (n in logs ==> logs[n] == logs'[n])
    ensures InLogs(logs, lo, hi) == InLogs(logs', lo, hi)
  {
    forall n, e | n in logs && lo <= n < hi && e in logs[n]
      ensures e in InLogs(logs', lo, hi)
    {
      assert e in logs'[n];
    }
    forall n, e | n in logs' && lo <= n < hi && e in logs'[n]
      ensures e in InLogs(logs, lo, hi)
    {
      assert e in logs[n];
    }
  }

  lemma TablesUnion(tables: Files, a: set<nat>, b: set<nat>)
    ensures InTables(tables, a + b) == InTables(tables, a) + InTables(tables, b)
  {
  }

  lemma OneTable(tables: Files, n: nat)
    requires n in tables
    ensures InTables(tables, {n}) == tables[n]
  {
  }

  lemma ReplayableSplit(logs: Files, log: nat, logNumber: nat)
    requires log in logs && logNumber <= log && forall n :: n in logs ==> n <= log
    ensures Replayable(logs, logNumber) == InLogs(logs, logNumber, log) + logs[log]
    ensures Replayable(logs, log) == logs[log]
  {
    forall e | e in Replayable(logs, logNumber)
      ensures e in InLogs(logs, logNumber, log) + logs[log]
    {
      var n :| n in logs && logNumber <= n && e in logs[n];
      assert n < log || n == log;
    }
  }

  lemma AppendKeepsLogs(s: State, batch: set<Entry>, t: State)
    requires Inv(s) && Appends(s, batch, t)
    ensures var p := s.process;
            && LogsSound(t.disk.logs, p.log, p.logNumber, p.nextFile, p.mem + batch, Entries(p.imm))
            && Replayable(t.disk.logs, p.logNumber) == Replayable(s.disk.logs, p.logNumber) + batch
  {
    var d, p := s.disk, s.process;
    AppendToLog(d.logs, p.log, p.logNumber, p.nextFile, p.mem, Entries(p.imm), batch);
  }

  lemma AppendToLog(logs: Files, log: nat, logNumber: nat, nextFile: nat, current: set<Entry>, imm: set<Entry>, batch: set<Entry>)
    requires LogsSound(logs, log, logNumber, nextFile, current, imm)
    ensures var logs' := logs[log := logs[log] + batch];
            && LogsSound(logs', log, logNumber, nextFile, current + batch, imm)
            && Replayable(logs', logNumber) == Replayable(logs, logNumber) + batch
  {
    var logs' := logs[log := logs[log] + batch];
    ReplayableSplit(logs, log, logNumber);
    ReplayableSplit(logs', log, logNumber);
    LogsFrame(logs, logs', logNumber, log);
  }

  lemma AppendKeepsInv(s: State, batch: set<Entry>, t: State)
    requires Inv(s) && Appends(s, batch, t)
    ensures Inv(t)
  {
    AppendKeepsLogs(s, batch, t);
    AppendKeepsDisk(s.disk, s.history, s.dropped, s.floor, s.process.log, batch, s.process.lastSequence, t.disk);
  }

  lemma AppendKeepsDisk(d: Disk, history: set<Entry>, dropped: set<Entry>, floor: nat, log: nat, batch: set<Entry>, last: nat, d': Disk)
    requires DiskSound(d, history, dropped, floor) && (forall e :: e in history ==> e.sequence <= last) && Consecutive(batch, last)
    requires log in d.logs && (forall n :: n in d.logs ==> n <= log) && d' == d.(logs := d.logs[log := d.logs[log] + batch])
    requires Replayable(d'.logs, d.manifest.logNumber) == Replayable(d.logs, d.manifest.logNumber) + batch
    ensures DiskSound(d', history + batch, dropped, floor)
  {
    var m := d.manifest;
    var tabled, logged := InTables(d.tables, m.files), Replayable(d.logs, m.logNumber);
    AppendKeepsOrder(d.logs, d'.logs, log, m.logNumber, batch, last, history);
    AppendIsFaithful(history, dropped, tabled, logged, m.lastSequence, floor, batch, last);
  }

  lemma AppendIsFaithful(history: set<Entry>, dropped: set<Entry>, tabled: set<Entry>, logged: set<Entry>, lastSequence: nat, floor: nat,
                         batch: set<Entry>, last: nat)
    requires Faithful(history, dropped, tabled, logged, lastSequence, floor)
    requires (forall e :: e in history ==> e.sequence <= last) && Consecutive(batch, last)
    ensures Faithful(history + batch, dropped, tabled, logged + batch, lastSequence, floor)
  {
    AppendIsComplete(history, dropped, tabled, logged, lastSequence, batch, last);
    AgreesExtend(history, tabled + logged, floor, batch, last);
    assert tabled + logged + batch == tabled + (logged + batch);
  }

  lemma AppendIsComplete(history: set<Entry>, dropped: set<Entry>, tabled: set<Entry>, logged: set<Entry>, lastSequence: nat, batch: set<Entry>, last: nat)
    requires Complete(history, dropped, tabled, logged, lastSequence)
    requires (forall e :: e in history ==> e.sequence <= last) && Consecutive(batch, last)
    ensures Complete(history + batch, dropped, tabled, logged + batch, lastSequence)
  {
  }

  lemma AppendKeepsOrder(logs: Files, logs': Files, log: nat, lo: nat, batch: set<Entry>, last: nat, history: set<Entry>)
    requires log in logs && logs' == logs[log := logs[log] + batch] && (forall n :: n in logs ==> n <= log)
    requires InOrder(logs, LogsFrom(logs, lo)) && Replayable(logs, lo) <= history
    requires (forall e :: e in history ==> e.sequence <= last) && Consecutive(batch, last)
    ensures InOrder(logs', LogsFrom(logs', lo))
  {
    forall a, b | a in LogsFrom(logs', lo) && b in LogsFrom(logs', lo) && a < b
      ensures Older(logs'[a], logs'[b])
    {
      assert a in LogsFrom(logs, lo) && b in LogsFrom(logs, lo);
      assert Older(logs[a], logs[b]) && logs[a] <= Replayable(logs, lo);
    }
  }

  lemma ApplyKeepsInv(s: State, t: State)
    requires Inv(s) && Applies(s, t)
    ensures Inv(t)
  {
    assert t.process.mem + t.process.inflight == s.process.mem + s.process.inflight;
  }

  lemma SwitchKeepsLogs(logs: Files, log: nat, logNumber: nat, nextFile: nat, mem: set<Entry>, imm: set<Entry>, logs': Files)
    requires LogsSound(logs, log, logNumber, nextFile, mem, imm) && imm == {}
    requires logs' == logs[nextFile := {}]
    ensures LogsSound(logs', nextFile, logNumber, nextFile + 1, {}, mem)
    ensures Replayable(logs', logNumber) == Replayable(logs, logNumber)
  {
    ReplayableSplit(logs, log, logNumber);
    ReplayableSplit(logs', nextFile, logNumber);
    LogsFrame(logs, logs', logNumber, log + 1);
    LogsFrame(logs, logs', log + 1, nextFile);
    assert InLogs(logs, logNumber, log + 1) == InLogs(logs, logNumber, log) + logs[log];
    assert InLogs(logs', logNumber, nextFile) == InLogs(logs', logNumber, log + 1) + InLogs(logs', log + 1, nextFile);
  }

  lemma EmptyLogKeepsOrder(logs: Files, lo: nat, n: nat)
    requires InOrder(logs, LogsFrom(logs, lo)) && n !in logs
    ensures InOrder(logs[n := {}], LogsFrom(logs[n := {}], lo))
    ensures Replayable(logs[n := {}], lo) == Replayable(logs, lo)
  {
    var logs' := logs[n := {}];
    forall k, e | k in logs && lo <= k && e in logs[k]
      ensures e in Replayable(logs', lo)
    {
      assert e in logs'[k];
    }
  }

  lemma SwitchKeepsInv(s: State, t: State)
    requires Inv(s) && Switches(s, t)
    ensures Inv(t)
  {
    var d, p, m := s.disk, s.process, s.disk.manifest;
    SwitchKeepsLogs(d.logs, p.log, p.logNumber, p.nextFile, p.mem + p.inflight, Entries(p.imm), t.disk.logs);
    EmptyLogKeepsOrder(d.logs, m.logNumber, p.nextFile);
    assert p.mem + p.inflight == p.mem;
  }

  lemma WriteTableKeepsInv(s: State, t: State)
    requires Inv(s) && WritesTable(s, t)
    ensures Inv(t)
  {
    var d, p, m := s.disk, s.process, s.disk.manifest;
    TablesFrame(d.tables, t.disk.tables, m.files);
    if p.job.Some? {
      TablesFrame(d.tables, t.disk.tables, p.job.value.ins);
      TablesFrame(d.tables, t.disk.tables, p.job.value.outs);
    }
  }

  lemma WriteOutputKeepsInv(s: State, content: set<Entry>, t: State)
    requires Inv(s) && WritesOutput(s, content, t)
    ensures Inv(t)
  {
    var d, p, m, j := s.disk, s.process, s.disk.manifest, s.process.job.value;
    TablesFrame(d.tables, t.disk.tables, m.files);
    TablesFrame(d.tables, t.disk.tables, j.ins);
    TablesFrame(d.tables, t.disk.tables, j.outs);
    TablesUnion(t.disk.tables, j.outs, {p.nextFile});
    OneTable(t.disk.tables, p.nextFile);
    OneMoreSeparate(t.disk.tables, j.outs, p.nextFile);
  }

  lemma BeginJobKeepsInv(s: State, j: Job, t: State)
    requires Inv(s) && BeginsJob(s, j, t)
    ensures Inv(t)
  {
    assert InTables(s.disk.tables, {}) == {};
  }

  lemma AbandonJobKeepsInv(s: State, t: State)
    requires Inv(s) && AbandonsJob(s, t)
    ensures Inv(t)
  {
  }

  /** The record that installs a flushed memtable: its entries pass from the older logs, which
      are no longer needed, to the new table. */
  lemma FlushRecordIsSound(s: State, d': Disk)
    requires Inv(s) && s.process.Up? && !s.process.failed && s.process.flushed.Some?
    requires d' == s.disk.(manifest := Manifest(s.process.log, s.process.nextFile, s.process.lastSequence, s.process.files + {s.process.flushed.value}))
    ensures DiskSound(d', s.history, s.dropped, s.floor)
  {
    var d, p, m := s.disk, s.process, s.disk.manifest;
    var tabled := InTables(d.tables, m.files);
    TablesUnion(d.tables, p.files, {p.flushed.value});
    OneTable(d.tables, p.flushed.value);
    ReplayableSplit(d.logs, p.log, p.logNumber);
    OlderLogsAreOlder(d.logs, p.logNumber, p.log);
    FlushIsComplete(s.history, s.dropped, tabled, Entries(p.imm), d.logs[p.log], m.lastSequence, p.lastSequence, p.inflight);
    ReplayableSplit(d.logs, p.log, p.log);
    TabledIsNotLogged(s.history, s.dropped, tabled, Replayable(d.logs, m.logNumber), m.lastSequence);
    OneMoreSeparate(d.tables, p.files, p.flushed.value);
    assert tabled + Entries(p.imm) + d.logs[p.log] == tabled + (Entries(p.imm) + d.logs[p.log]);
  }

  lemma OlderLogsAreOlder(logs: Files, lo: nat, log: nat)
    requires InOrder(logs, LogsFrom(logs, lo)) && log in logs && lo <= log
    ensures Older(InLogs(logs, lo, log), logs[log])
  {
    forall e | e in InLogs(logs, lo, log)
      ensures Older({e}, logs[log])
    {
      var n :| n in logs && lo <= n < log && e in logs[n];
      assert n in LogsFrom(logs, lo) && log in LogsFrom(logs, lo);
      assert Older(logs[n], logs[log]);
    }
    forall x, y | x in InLogs(logs, lo, log) && y in logs[log]
      ensures x.sequence < y.sequence
    {
      assert Older({x}, logs[log]);
    }
  }

  lemma FlushIsComplete(history: set<Entry>, dropped: set<Entry>, tabled: set<Entry>, imm: set<Entry>, current: set<Entry>,
                        before: nat, last: nat, inflight: set<Entry>)
    requires Complete(history, dropped, tabled, imm + current, before) && Older(imm, current) && before <= last
    requires inflight <= current && forall e :: e in history ==> e.sequence <= last || e in inflight
    ensures Complete(history, dropped, tabled + imm, current, last)
  {
    forall x | x in imm
      ensures x.sequence <= last
    {
      assert x in history;
    }
    forall x, y | x in dropped + (tabled + imm) && y in current
      ensures x.sequence < y.sequence
    {
      if x !in imm {
        assert x in dropped + tabled && y in imm + current;
      }
    }
  }

  lemma InstallIsComplete(history: set<Entry>, dropped: set<Entry>, rest: set<Entry>, ins: set<Entry>, outs: set<Entry>, logged: set<Entry>,
                          before: nat, last: nat)
    requires Complete(history, dropped, rest + ins, logged, before) && outs <= ins && before <= last
    ensures Complete(history, dropped + (ins - outs), rest + outs, logged, last)
  {
    assert dropped + (rest + ins) == dropped + (ins - outs) + (rest + outs);
  }

  lemma CommitFlushKeepsInv(s: State, o: Outcome, t: State)
    requires Inv(s) && CommitsFlush(s, o, t)
    ensures Inv(t)
  {
    var d, p := s.disk, s.process;
    FlushRecordIsSound(s, d.(manifest := Manifest(p.log, p.nextFile, p.lastSequence, p.files + {p.flushed.value})));
    assert InLogs(d.logs, p.log, p.log) == {};
  }

  /** The record that installs a compaction. */
  lemma InstallRecordIsSound(s: State, d': Disk)
    requires Inv(s) && s.process.Up? && !s.process.failed && s.process.job.Some?
    requires var p, j := s.process, s.process.job.value;
             d' == s.disk.(manifest := Manifest(p.logNumber, p.nextFile, p.lastSequence, p.files - j.ins + j.outs))
    requires var p, j := s.process, s.process.job.value;
             DropsRightly(s.disk.tables, InTables(s.disk.tables, p.files - j.ins) + Replayable(s.disk.logs, p.logNumber), j)
    ensures var j := s.process.job.value;
            DiskSound(d', s.history, s.dropped + (InTables(s.disk.tables, j.ins) - InTables(s.disk.tables, j.outs)), Max(s.floor, j.snapshot))
  {
    var d, p, j, m := s.disk, s.process, s.process.job.value, s.disk.manifest;
    var others, ins, outs := InTables(d.tables, p.files - j.ins), InTables(d.tables, j.ins), InTables(d.tables, j.outs);
    var logged := Replayable(d.logs, m.logNumber);
    TablesUnion(d.tables, p.files - j.ins, j.ins);
    assert p.files - j.ins + j.ins == p.files;
    TablesUnion(d.tables, p.files - j.ins, j.outs);
    InstallIsComplete(s.history, s.dropped, others, ins, outs, logged, m.lastSequence, p.lastSequence);
    InstallKeepsSeparate(d.tables, p.files, j.ins, j.outs);
    assert others + ins + logged == others + logged + ins && others + outs + logged == others + logged + outs;
    TabledIsNotLogged(s.history, s.dropped, others + ins, logged, m.lastSequence);
    InstallAgrees(s.history, others + logged, d.tables, j, s.floor);
  }

  lemma TabledIsNotLogged(history: set<Entry>, dropped: set<Entry>, tabled: set<Entry>, logged: set<Entry>, last: nat)
    requires Complete(history, dropped, tabled, logged, last)
    ensures tabled !! logged
  {
    forall x | x in tabled
      ensures x !in logged
    {
      assert x in dropped + tabled;
    }
  }

  /** What the drop rule keeps reads as the inputs did, from the compaction's snapshot on. */
  lemma InstallAgrees(history: set<Entry>, rest: set<Entry>, tables: Files, j: Job, floor: nat)
    requires Unique(history) && Agrees(history, rest + InTables(tables, j.ins), floor)
    requires rest + InTables(tables, j.ins) <= history && rest !! InTables(tables, j.ins)
    requires DropsRightly(tables, rest, j)
    ensures Agrees(history, rest + InTables(tables, j.outs), Max(floor, j.snapshot))
  {
    CompactionMeaning.ReadsPreservedIff(rest, InTables(tables, j.ins), j.base, j.level, j.snapshot);
  }

  lemma InstallKeepsSeparate(tables: Files, files: set<nat>, ins: set<nat>, outs: set<nat>)
    requires Separate(tables, files) && Separate(tables, outs) && ins <= files && outs !! files
    requires InTables(tables, outs) <= InTables(tables, ins)
    ensures Separate(tables, files - ins + outs)
    ensures InTables(tables, files - ins) !! InTables(tables, ins)
  {
    forall a, e | a in files - ins && a in tables && e in tables[a]
      ensures e !in InTables(tables, ins)
    {
    }
    forall a, b | a in files - ins && b in outs && a in tables && b in tables
      ensures tables[a] !! tables[b]
    {
      forall e | e in tables[b]
        ensures e !in tables[a]
      {
        assert e in InTables(tables, outs);
      }
    }
  }

  lemma AgreesExtend(history: set<Entry>, live: set<Entry>, floor: nat, batch: set<Entry>, last: nat)
    requires Agrees(history, live, floor) && live <= history && Unique(history)
    requires (forall e :: e in history ==> e.sequence <= last) && Consecutive(batch, last)
    ensures Agrees(history + batch, live + batch, floor)
  {
    forall u, n: nat | n >= floor
      ensures Read(live + batch, u, n) == Read(history + batch, u, n)
    {
      ReadsExtend(live, history, batch, u, n);
    }
  }

  lemma OneMoreSeparate(tables: Files, files: set<nat>, n: nat)
    requires Separate(tables, files) && n in tables && tables[n] !! InTables(tables, files)
    ensures Separate(tables, files + {n})
  {
    forall a, e | a in files && a in tables && e in tables[a]
      ensures e !in tables[n]
    {
      assert e in InTables(tables, files);
    }
  }

  lemma UnionSeparate(tables: Files, files: set<nat>, made: set<nat>)
    requires Separate(tables, files) && InOrder(tables, made) && InTables(tables, files) !! InTables(tables, made)
    ensures Separate(tables, files + made)
  {
    forall a, b, e | a in files && a in tables && e in tables[a] && b in made && b in tables
      ensures e !in tables[b]
    {
      assert e in InTables(tables, files);
    }
    forall a, b | a in made && b in made && a < b && a in tables && b in tables
      ensures tables[a] !! tables[b]
    {
      assert Older(tables[a], tables[b]);
    }
  }

  lemma CommitJobKeepsInv(s: State, o: Outcome, t: State)
    requires Inv(s) && CommitsJob(s, o, t)
    ensures Inv(t)
  {
    var d, p, j := s.disk, s.process, s.process.job.value;
    InstallRecordIsSound(s, d.(manifest := Manifest(p.logNumber, p.nextFile, p.lastSequence, p.files - j.ins + j.outs)));
  }

  lemma DeleteLogKeepsInv(s: State, n: nat, t: State)
    requires Inv(s) && DeletesLog(s, n, t)
    ensures Inv(t)
  {
    var d, p, m, logs := s.disk, s.process, s.disk.manifest, t.disk.logs;
    LogsFrame(d.logs, logs, p.logNumber, p.log);
    ReplayableSplit(d.logs, p.log, p.logNumber);
    ReplayableSplit(logs, p.log, p.logNumber);
    assert InOrder(logs, LogsFrom(logs, m.logNumber));
  }

  lemma DeleteTableKeepsInv(s: State, n: nat, t: State)
    requires Inv(s) && DeletesTable(s, n, t)
    ensures Inv(t)
  {
    var d, p, m := s.disk, s.process, s.disk.manifest;
    TablesFrame(d.tables, t.disk.tables, p.files);
    if p.job.Some? {
      TablesFrame(d.tables, t.disk.tables, p.job.value.ins);
      TablesFrame(d.tables, t.disk.tables, p.job.value.outs);
    }
  }

  lemma CrashKeepsInv(s: State, junk: Files, t: State)
    requires Inv(s) && Crashes(s, junk, t)
    ensures Inv(t)
  {
    TablesFrame(s.disk.tables, t.disk.tables, s.disk.manifest.files);
  }

  lemma StartOpenKeepsInv(s: State, t: State)
    requires Inv(s) && StartsOpen(s, t)
    ensures Inv(t)
  {
    var d, p := s.disk, t.process;
    assert InTables(d.tables, {}) == {};
    assert Replayed(d.logs, d.manifest.logNumber, p.todo) == {};
  }

  lemma ReplayKeepsInv(s: State, n: nat, parts: Files, t: State)
    requires Inv(s) && Replays(s, n, parts, t)
    ensures Inv(t)
  {
    TablesFrame(s.disk.tables, t.disk.tables, s.disk.manifest.files);
    ReplayKeepsTables(s, n, parts, t);
    ReplayedTablesInOrder(s, n, parts, t);
  }

  lemma ReplayKeepsTables(s: State, n: nat, parts: Files, t: State)
    requires s.process.Opening? && OpeningSound(s.disk, s.process) && Replays(s, n, parts, t)
    ensures InTables(t.disk.tables, t.process.made) == Replayed(s.disk.logs, s.disk.manifest.logNumber, t.process.todo)
    ensures forall e :: e in Replayed(s.disk.logs, s.disk.manifest.logNumber, t.process.todo) ==> e.sequence <= t.process.maxSequence
  {
    var d, p, q, m := s.disk, s.process, t.process, s.disk.manifest;
    TablesFrame(d.tables, t.disk.tables, p.made);
    TablesFrame(parts, t.disk.tables, parts.Keys);
    TablesUnion(t.disk.tables, p.made, parts.Keys);
    assert Replayed(d.logs, m.logNumber, q.todo) == Replayed(d.logs, m.logNumber, p.todo) + d.logs[n];
  }

  lemma ReplayedIsOlder(logs: Files, lo: nat, todo: set<nat>, n: nat)
    requires InOrder(logs, LogsFrom(logs, lo)) && n in todo && todo <= LogsFrom(logs, lo)
    requires forall k :: k in logs && lo <= k && k !in todo ==> k < n
    ensures Older(Replayed(logs, lo, todo), logs[n])
  {
    forall x, y | x in Replayed(logs, lo, todo) && y in logs[n]
      ensures x.sequence < y.sequence
    {
      var k :| k in logs && lo <= k && k !in todo && x in logs[k];
      assert k in LogsFrom(logs, lo) && Older(logs[k], logs[n]);
    }
  }

  /** Replaying the logs from the oldest gives newer tables larger numbers, as level 0 needs. */
  lemma ReplayedTablesInOrder(s: State, n: nat, parts: Files, t: State)
    requires Inv(s) && Replays(s, n, parts, t)
    ensures InOrder(t.disk.tables, t.process.made)
  {
    var d, p, m := s.disk, s.process, s.disk.manifest;
    forall a, b | a in p.made && b in parts && a in d.tables
      ensures Older(d.tables[a], parts[b])
    {
      assert d.tables[a] <= InTables(d.tables, p.made) && parts[b] <= InTables(parts, parts.Keys);
      ReplayedIsOlder(d.logs, m.logNumber, p.todo, n);
    }
  }

  /** The first record of a reopened database. */
  lemma OpenRecordIsSound(s: State, d': Disk)
    requires Inv(s) && s.process.Opening? && s.process.todo == {}
    requires var d, p := s.disk, s.process;
             d' == Disk(d.logs[p.nextFile := {}], d.tables,
                        Manifest(p.nextFile, p.nextFile + 1, Max(d.manifest.lastSequence, p.maxSequence), d.manifest.files + p.made))
    ensures DiskSound(d', s.history, s.dropped, s.floor)
    ensures forall e :: e in s.history ==> e.sequence <= d'.manifest.lastSequence
  {
    var d, p, m := s.disk, s.process, s.disk.manifest;
    TablesUnion(d.tables, m.files, p.made);
    assert Replayed(d.logs, m.logNumber, {}) == Replayable(d.logs, m.logNumber);
    assert Replayable(d'.logs, p.nextFile) == {};
    var tabled, made := InTables(d.tables, m.files), InTables(d.tables, p.made);
    ReplayIsComplete(s.history, s.dropped, tabled, made, m.lastSequence, d'.manifest.lastSequence);
    TabledIsNotLogged(s.history, s.dropped, tabled, made, m.lastSequence);
    UnionSeparate(d.tables, m.files, p.made);
    assert tabled + made + {} == tabled + made;
  }

  lemma ReplayIsComplete(history: set<Entry>, dropped: set<Entry>, tabled: set<Entry>, logged: set<Entry>, before: nat, last: nat)
    requires Complete(history, dropped, tabled, logged, before) && before <= last
    requires forall e :: e in logged ==> e.sequence <= last
    ensures Complete(history, dropped, tabled + logged, {}, last)
    ensures forall e :: e in history ==> e.sequence <= last
  {
  }

  lemma FinishOpenKeepsInv(s: State, o: Outcome, t: State)
    requires Inv(s) && FinishesOpen(s, o, t)
    ensures Inv(t)
  {
    var d, p, m := s.disk, s.process, s.disk.manifest;
    var logs := d.logs[p.nextFile := {}];
    assert p.nextFile !in d.logs;
    if o.ErrorLost? {
      EmptyLogKeepsOrder(d.logs, m.logNumber, p.nextFile);
    } else {
      OpenRecordIsSound(s, t.disk);
      assert InLogs(logs, p.nextFile, p.nextFile) == {};
    }
  }

  lemma NextKeepsInv(s: State, step: Step, t: State)
    requires Inv(s) && Next(s, step, t)
    ensures Inv(t)
  {
    match step
    case Append(batch) => AppendKeepsInv(s, batch, t);
    case Apply => ApplyKeepsInv(s, t);
    case SwitchLog => SwitchKeepsInv(s, t);
    case WriteTable => WriteTableKeepsInv(s, t);
    case CommitFlush(o) => CommitFlushKeepsInv(s, o, t);
    case BeginJob(j) => BeginJobKeepsInv(s, j, t);
    case WriteOutput(content) => WriteOutputKeepsInv(s, content, t);
    case CommitJob(o) => CommitJobKeepsInv(s, o, t);
    case AbandonJob => AbandonJobKeepsInv(s, t);
    case DeleteLog(n) => DeleteLogKeepsInv(s, n, t);
    case DeleteTable(n) => DeleteTableKeepsInv(s, n, t);
    case Crash(junk) => CrashKeepsInv(s, junk, t);
    case StartOpen => StartOpenKeepsInv(s, t);
    case ReplayLog(n, parts) => ReplayKeepsInv(s, n, parts, t);
    case FinishOpen(o) => FinishOpenKeepsInv(s, o, t);
  }

  ghost predicate Run(states: seq<State>, steps: seq<Step>) {
    && |states| == |steps| + 1 && states[0] == NewDatabase()
    && forall i :: 0 <= i < |steps| ==> Next(states[i], steps[i], states[i + 1])
  }

  lemma {:induction false} RunKeepsInv(states: seq<State>, steps: seq<Step>, n: nat)
    requires Run(states, steps) && n < |states|
    ensures Inv(states[n])
  {
    if n == 0 {
      assert states[0] == NewDatabase();
    } else {
      RunKeepsInv(states, steps, n - 1);
      NextKeepsInv(states[n - 1], steps[n - 1], states[n]);
    }
  }

  /** Whenever the process stops, the disk alone holds every entry ever logged that no
      compaction has discarded, and none of them twice; and what it holds reads, key by key, as
      all that was ever logged, at every sequence number no compaction has gone beyond. */
  lemma DiskIsAlwaysComplete(states: seq<State>, steps: seq<Step>, n: nat)
    requires Run(states, steps) && n < |states|
    ensures var s, m := states[n], states[n].disk.manifest;
            var tabled, logged := InTables(s.disk.tables, m.files), Replayable(s.disk.logs, m.logNumber);
            && s.history == s.dropped + tabled + logged && tabled !! logged
            && m.files <= s.disk.tables.Keys && Separate(s.disk.tables, m.files)
            && s.floor <= m.lastSequence
            && forall u, number :: number >= s.floor ==> Read(tabled + logged, u, number) == Read(s.history, u, number)
  {
    RunKeepsInv(states, steps, n);
    var s := states[n];
    var tabled, logged := InTables(s.disk.tables, s.disk.manifest.files), Replayable(s.disk.logs, s.disk.manifest.logNumber);
    TabledIsNotLogged(s.history, s.dropped, tabled, logged, s.disk.manifest.lastSequence);
  }

  /** While the process is healthy, its memory and its tables together hold the same entries and
      read, at the last sequence number, as the history without the batch in progress; and the
      next batch gets sequence numbers that were never used. */
  lemma MemoryIsComplete(states: seq<State>, steps: seq<Step>, n: nat)
    requires Run(states, steps) && n < |states| && states[n].process.Up? && !states[n].process.failed
    ensures var s, p := states[n], states[n].process;
            var live := InTables(s.disk.tables, p.files) + Entries(p.imm) + p.mem;
            && s.history == s.dropped + live + p.inflight
            && (forall e :: e in s.history && e !in p.inflight ==> e.sequence <= p.lastSequence)
            && forall u :: Read(live, u, p.lastSequence) == Read(s.history, u, p.lastSequence)
  {
    RunKeepsInv(states, steps, n);
    var s, d, p := states[n], states[n].disk, states[n].process;
    ReplayableSplit(d.logs, p.log, p.logNumber);
    var live := InTables(d.tables, p.files) + Entries(p.imm) + p.mem;
    assert live + p.inflight == InTables(d.tables, p.files) + Replayable(d.logs, p.logNumber);
    forall u
      ensures Read(live, u, p.lastSequence) == Read(s.history, u, p.lastSequence)
    {
      SameVisible(live, p.inflight, u, p.lastSequence);
    }
  }

  /** Reopening rebuilds the fold of all logged batches, in tables and under a new log: every
      key reads from the tables, at the last sequence number, as all that was ever logged. */
  lemma ReopeningRebuilds(states: seq<State>, steps: seq<Step>, n: nat)
    requires Run(states, steps) && n < |steps| && steps[n] == FinishOpen(Committed)
    ensures var s, t := states[n], states[n + 1];
            && t.process.Up? && t.history == s.history && t.process.mem == {} && t.process.imm == None
            && t.history == t.dropped + InTables(t.disk.tables, t.process.files)
            && (forall u :: Read(InTables(t.disk.tables, t.process.files), u, t.process.lastSequence)
                         == Read(t.history, u, t.process.lastSequence))
            && (forall e :: e in t.history ==> e.sequence <= t.process.lastSequence)
            && InOrder(t.disk.tables, t.process.files - s.disk.manifest.files)
            && t.process.log !in s.disk.logs
  {
    RunKeepsInv(states, steps, n);
    RunKeepsInv(states, steps, n + 1);
    MemoryIsComplete(states, steps, n + 1);
    assert Next(states[n], steps[n], states[n + 1]);
    var t := states[n + 1];
    assert InTables(t.disk.tables, t.process.files) + {} + {} == InTables(t.disk.tables, t.process.files);
  }
}
