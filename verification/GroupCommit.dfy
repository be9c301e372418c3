/** DBImpl::Write and BuildBatchGroup in db/db_impl.cc: the queue of writers.

    The writer at the front works for a prefix of the queue.  It drops the lock while it logs and
    applies the group, so writers may arrive between any two of its steps.  A machine state also
    records the groups so far; the proofs say what that record and the real state agree on. */
module GroupCommit {
  import opened Keys

  /** `batch` is None for the writer of a manual compaction; `size` is the batch's ByteSize. */
  datatype Writer = Writer(id: nat, batch: Option<seq<(UserKey, Op)>>, size: nat, sync: bool)

  datatype Status = Ok | Failed

  datatype Record = Record(first: nat, ops: seq<(UserKey, Op)>)

  // The group

  /** The writers from `i` on that still fit. */
  function GroupEnd(q: seq<Writer>, i: nat, size: nat, max: nat): (n: nat)
    requires 0 < i <= |q|
    ensures i <= n <= |q|
    decreases |q| - i
  {
    if i == |q| then i
    else if q[i].sync && !q[0].sync then i
    else if q[i].batch.None? then GroupEnd(q, i + 1, size, max)
    else if size + q[i].size > max then i
    else GroupEnd(q, i + 1, size + q[i].size, max)
  }

  function MaxSize(size: nat): nat {
    if size <= 0x2_0000 then size + 0x2_0000 else 0x10_0000
  }

  function GroupLength(q: seq<Writer>): (n: nat)
    requires q != []
    ensures 1 <= n <= |q|
  {
    GroupEnd(q, 1, q[0].size, MaxSize(q[0].size))
  }

  function BatchOf(w: Writer): seq<(UserKey, Op)> {
    match w.batch case None => [] case Some(b) => b
  }

  function OpsOf(q: seq<Writer>): seq<(UserKey, Op)> {
    if q == [] then [] else OpsOf(q[..|q| - 1]) + BatchOf(q[|q| - 1])
  }

  /** How many operations the first `i` writers have. */
  function Offset(q: seq<Writer>, i: nat): nat
    requires i <= |q|
  {
    if i == 0 then 0 else Offset(q, i - 1) + |BatchOf(q[i - 1])|
  }

  ghost predicate HasBatch(q: seq<Writer>, ops: seq<(UserKey, Op)>, i: nat)
    requires i < |q|
  {
    var at, b := Offset(q, i), BatchOf(q[i]);
    at + |b| <= |ops| && ops[at..at + |b|] == b
  }

  /** `ops` are the operations of all these writers, each batch at its place and nothing else. */
  ghost predicate Joins(q: seq<Writer>, ops: seq<(UserKey, Op)>) {
    |ops| == Offset(q, |q|) && forall i :: 0 <= i < |q| ==> HasBatch(q, ops, i)
  }

  lemma {:induction false} OffsetOfFront(q: seq<Writer>, n: nat, i: nat)
    requires i <= n <= |q|
    ensures Offset(q[..n], i) == Offset(q, i)
    decreases i
  {
    if i > 0 {
      OffsetOfFront(q, n, i - 1);
    }
  }

  lemma OneMoreJoins(q: seq<Writer>, ops: seq<(UserKey, Op)>)
    requires q != [] && Joins(q[..|q| - 1], ops)
    ensures Joins(q, ops + BatchOf(q[|q| - 1]))
  {
    var n, all := |q| - 1, ops + BatchOf(q[|q| - 1]);
    OffsetOfFront(q, n, n);
    forall i | 0 <= i < |q|
      ensures HasBatch(q, all, i)
    {
      if i < n {
        OffsetOfFront(q, n, i);
        assert HasBatch(q[..n], ops, i);
      }
    }
  }

  /** No writer's operations are missing, moved or repeated. */
  lemma {:induction false} OpsJoin(q: seq<Writer>)
    ensures Joins(q, OpsOf(q))
  {
    if q != [] {
      OpsJoin(q[..|q| - 1]);
      OneMoreJoins(q, OpsOf(q[..|q| - 1]));
    }
  }

  function SizeOf(q: seq<Writer>): nat {
    if q == [] then 0
    else SizeOf(q[..|q| - 1]) + if q[|q| - 1].batch.Some? then q[|q| - 1].size else 0
  }

  lemma {:induction false} SizesAdd(a: seq<Writer>, b: seq<Writer>, w: Writer)
    ensures SizeOf(a + b) == SizeOf(a) + SizeOf(b)
    ensures SizeOf([w]) == if w.batch.Some? then w.size else 0
    decreases |b|
  {
    assert [w][..0] == [];
    if b == [] {
      assert a + b == a;
    } else {
      assert (a + b)[..|a + b| - 1] == a + b[..|b| - 1];
      SizesAdd(a, b[..|b| - 1], w);
    }
  }

  /** The first `n` writers are a group: no sync writer behind a leader that is not, within the size
      limit unless the leader alone is not, and as many as these two allow. */
  ghost predicate IsGroup(q: seq<Writer>, n: nat) {
    && 1 <= n <= |q|
    && var limit := if q[0].size <= 0x2_0000 then q[0].size + 0x2_0000 else 0x10_0000;
    && (!q[0].sync ==> forall j :: 0 <= j < n ==> !q[j].sync)
    && (SizeOf(q[..n]) <= limit || SizeOf(q[..n]) == q[0].size)
    && (n < |q| ==> (q[n].sync && !q[0].sync) || (q[n].batch.Some? && SizeOf(q[..n]) + q[n].size > limit))
  }

  lemma GroupLengthIs(q: seq<Writer>)
    requires q != [] && q[0].batch.Some?
    ensures IsGroup(q, GroupLength(q))
  {
    assert q[..1][..0] == [] && SizeOf(q[..1]) == q[0].size;
    GroupIsRight(q, 1, q[0].size, MaxSize(q[0].size));
  }

  /** BuildBatchGroup: how many writers, and their operations one after the other. */
  method BuildBatchGroup(q: seq<Writer>) returns (n: nat, result: seq<(UserKey, Op)>)
    requires q != [] && q[0].batch.Some?
    ensures n == GroupLength(q) && result == OpsOf(q[..n])
    ensures IsGroup(q, n) && Joins(q[..n], result)
  {
    var size: nat := q[0].size;
    var maxSize: nat := 0x10_0000;
    if size <= 0x2_0000 {
      maxSize := size + 0x2_0000;
    }
    result := q[0].batch.value;
    n := 1;
    assert q[..1][..0] == [];
    while n < |q|
      invariant 1 <= n <= |q| && result == OpsOf(q[..n])
      invariant GroupEnd(q, n, size, maxSize) == GroupLength(q)
    {
      var w := q[n];
      if w.sync && !q[0].sync {
        break;
      }
      assert q[..n + 1][..n] == q[..n];
      if w.batch.Some? {
        size := size + w.size;
        if size > maxSize {
          break;
        }
        result := result + w.batch.value;
      }
      n := n + 1;
    }
    GroupLengthIs(q);
    OpsJoin(q[..n]);
  }

  /** The group has no sync writer behind a leader that is not; it is within the size limit, unless
      the leader alone is not; and it stops only where one of the two would be broken. */
  lemma {:induction false} GroupIsRight(q: seq<Writer>, i: nat, size: nat, max: nat)
    requires 0 < i <= |q| && q[0].batch.Some? && size == SizeOf(q[..i])
    requires !q[0].sync ==> forall j :: 0 <= j < i ==> !q[j].sync
    ensures var n := GroupEnd(q, i, size, max);
            && (!q[0].sync ==> forall j :: 0 <= j < n ==> !q[j].sync)
            && (SizeOf(q[..n]) <= max || SizeOf(q[..n]) == size)
            && (n < |q| ==> (q[n].sync && !q[0].sync) || (q[n].batch.Some? && SizeOf(q[..n]) + q[n].size > max))
    decreases |q| - i
  {
    if i < |q| && !(q[i].sync && !q[0].sync) {
      assert q[..i + 1][..i] == q[..i];
      if q[i].batch.None? {
        GroupIsRight(q, i + 1, size, max);
      } else if size + q[i].size <= max {
        GroupIsRight(q, i + 1, size + q[i].size, max);
      }
    }
  }

  // The machine

  /** Where the writer at the front is: waiting or making room; its group of `n` built; logged;
      synced; or done with a status. */
  datatype Phase = Idle | Built(n: nat) | Logged(n: nat) | Synced(n: nat) | Finished(n: nat, status: Status)

  /** A group that has left the queue.  `record` is the index of its log record, if one was added. */
  datatype Group = Group(writers: seq<Writer>, first: nat, ops: seq<(UserKey, Op)>, status: Status, record: Option<nat>)

  /** `fileStart` is the first record of the current log file, `synced` the records synced.  `arrived`,
      `left` and `groups` are history. */
  datatype State = State(
    queue: seq<Writer>, phase: Phase, lastSequence: nat, log: seq<Record>, fileStart: nat, synced: set<nat>, mem: seq<Entry>, error: bool,
    arrived: seq<Writer>, left: seq<(Writer, Status)>, groups: seq<Group>)

  datatype Step =
    | Arrive(w: Writer) | MakeRoomFails | Compaction | SwitchLog | Build
    | AddRecord(ok: bool) | Sync(ok: bool) | Insert | Leave

  /** The operations of a record, with their sequence numbers. */
  function Stamp(r: Record): seq<Entry> {
    seq(|r.ops|, i requires 0 <= i < |r.ops| => Entry(r.ops[i].0, r.first + i, r.ops[i].1))
  }

  function StatusOf(q: seq<Writer>, st: Status): seq<(Writer, Status)> {
    seq(|q|, i requires 0 <= i < |q| => (q[i], st))
  }

  /** The group of `n` writers at the front leaves with its status. */
  function Departed(s: State, n: nat, ops: seq<(UserKey, Op)>, st: Status, record: Option<nat>): State
    requires n <= |s.queue|
  {
    s.(queue := s.queue[n..], phase := Idle, lastSequence := s.lastSequence + |ops|,
       left := s.left + StatusOf(s.queue[..n], st),
       groups := s.groups + [Group(s.queue[..n], s.lastSequence + 1, ops, st, record)])
  }

  /** The record the group in hand added is the last one of the log. */
  function Mine(s: State): Option<nat> {
    if s.phase.Finished? && s.phase.status.Ok? && s.log != [] then Some(|s.log| - 1) else None
  }

  ghost predicate Next(s: State, step: Step, t: State) {
    match step
    case Arrive(w) =>
      t == s.(queue := s.queue + [w], arrived := s.arrived + [w])
    case MakeRoomFails =>
      s.phase.Idle? && s.queue != [] && t == Departed(s, 1, [], Failed, None)
    case Compaction =>
      s.phase.Idle? && s.queue != [] && !s.error && s.queue[0].batch.None? && t == Departed(s, 1, [], Ok, None)
    case SwitchLog =>
      s.phase.Idle? && s.queue != [] && !s.error && t == s.(fileStart := |s.log|)
    case Build =>
      s.phase.Idle? && s.queue != [] && !s.error && s.queue[0].batch.Some? && t == s.(phase := Built(GroupLength(s.queue)))
    case AddRecord(ok) =>
      && s.phase.Built? && s.phase.n <= |s.queue|
      && t == if ok then s.(phase := Logged(s.phase.n), log := s.log + [Record(s.lastSequence + 1, OpsOf(s.queue[..s.phase.n]))])
              else s.(phase := Finished(s.phase.n, Failed))
    case Sync(ok) =>
      && s.phase.Logged? && s.queue != [] && s.queue[0].sync
      && t == if ok then s.(phase := Synced(s.phase.n), synced := s.synced + Since(s.fileStart, |s.log|))
              else s.(phase := Finished(s.phase.n, Failed), error := true)
    case Insert =>
      && (s.phase.Synced? || (s.phase.Logged? && s.queue != [] && !s.queue[0].sync)) && s.log != []
      && t == s.(phase := Finished(s.phase.n, Ok), mem := s.mem + Stamp(s.log[|s.log| - 1]))
    case Leave =>
      && s.phase.Finished? && s.phase.n <= |s.queue|
      && t == Departed(s, s.phase.n, OpsOf(s.queue[..s.phase.n]), s.phase.status, Mine(s))
  }

  function Since(from: nat, end: nat): (r: set<nat>)
    ensures forall i: nat :: i in r <==> from <= i < end
  {
    if from >= end then {} else Since(from, end - 1) + {end - 1}
  }

  function Init(): State {
    State([], Idle, 0, [], 0, {}, [], false, [], [], [])
  }

  // What always holds

  function WritersOf(gs: seq<Group>): seq<Writer> {
    if gs == [] then [] else WritersOf(gs[..|gs| - 1]) + gs[|gs| - 1].writers
  }

  function LeftOf(gs: seq<Group>): seq<(Writer, Status)> {
    if gs == [] then [] else LeftOf(gs[..|gs| - 1]) + StatusOf(gs[|gs| - 1].writers, gs[|gs| - 1].status)
  }

  /** How many operations the groups have. */
  function Count(gs: seq<Group>): nat {
    if gs == [] then 0 else Count(gs[..|gs| - 1]) + |gs[|gs| - 1].ops|
  }

  /** The operations of the groups that succeeded, in queue order. */
  function Applied(gs: seq<Group>): seq<Entry> {
    if gs == [] then []
    else
      var g := gs[|gs| - 1];
      Applied(gs[..|gs| - 1]) + if g.status.Ok? then Stamp(Record(g.first, g.ops)) else []
  }

  ghost predicate GroupOk(g: Group, log: seq<Record>, synced: set<nat>) {
    && g.writers != []
    && (g.ops == OpsOf(g.writers) || (g.record.None? && g.ops == []))
    && (g.status.Ok? && g.record.None? ==> g.ops == [] && |g.writers| == 1 && g.writers[0].batch.None?)
    && (g.record.Some? ==> g.status.Ok? && g.record.value < |log| && log[g.record.value] == Record(g.first, g.ops))
    && (g.record.Some? && (exists i :: 0 <= i < |g.writers| && g.writers[i].sync) ==> g.record.value in synced)
  }

  /** The group in hand is one, and its record is the last of the log once it is added. */
  ghost predicate PhaseOk(s: State) {
    s.phase.Idle? ||
    (&& GroupBuilt(s.queue, s.phase.n)
     && (s.phase.Logged? || s.phase.Synced? || (s.phase.Finished? && s.phase.status.Ok?) ==>
           LastIs(s.log, s.fileStart, s.lastSequence, OpsOf(s.queue[..s.phase.n])))
     && (s.phase.Synced? || (s.phase.Finished? && s.phase.status.Ok? && s.queue[0].sync) ==> |s.log| - 1 in s.synced))
  }

  /** A group stays a group when writers arrive behind it. */
  ghost predicate GroupBuilt(q: seq<Writer>, n: nat) {
    && 1 <= n <= |q| && q[0].batch.Some?
    && (!q[0].sync ==> forall j :: 0 <= j < n ==> !q[j].sync)
  }

  ghost predicate LastIs(log: seq<Record>, fileStart: nat, lastSequence: nat, ops: seq<(UserKey, Op)>) {
    fileStart < |log| && log[|log| - 1] == Record(lastSequence + 1, ops)
  }

  ghost predicate QueueOk(arrived: seq<Writer>, left: seq<(Writer, Status)>, queue: seq<Writer>, groups: seq<Group>) {
    arrived == WritersOf(groups) + queue && left == LeftOf(groups)
  }

  ghost predicate GroupsOk(groups: seq<Group>, log: seq<Record>, synced: set<nat>) {
    forall i :: 0 <= i < |groups| ==> GroupOk(groups[i], log, synced) && groups[i].first == Count(groups[..i]) + 1
  }

  ghost predicate Inv(s: State) {
    && QueueOk(s.arrived, s.left, s.queue, s.groups)
    && s.lastSequence == Count(s.groups)
    && GroupsOk(s.groups, s.log, s.synced)
    && s.mem == Applied(s.groups) + (if s.phase.Finished? && s.phase.status.Ok? && s.log != [] then Stamp(s.log[|s.log| - 1]) else [])
    && s.fileStart <= |s.log|
    && PhaseOk(s)
    && LogOrdered(s)
  }

  /** Records have increasing, disjoint ranges of sequence numbers, up to the group in hand. */
  ghost predicate LogOrdered(s: State) {
    && (forall i, j :: 0 <= i < j < |s.log| ==> s.log[i].first + |s.log[i].ops| <= s.log[j].first)
    && (forall i :: 0 <= i < |s.log| ==> s.log[i].first + |s.log[i].ops| <= s.lastSequence + 1 || IsInHand(s, i))
  }

  ghost predicate IsInHand(s: State, i: nat) {
    && i == |s.log| - 1 && (s.phase.Logged? || s.phase.Synced? || s.phase.Finished?) && s.phase.n <= |s.queue|
    && s.log[i] == Record(s.lastSequence + 1, OpsOf(s.queue[..s.phase.n]))
  }

  lemma InitInv()
    ensures Inv(Init())
  {
  }

  lemma ArriveKeepsInv(s: State, w: Writer, t: State)
    requires Inv(s) && Next(s, Arrive(w), t)
    ensures Inv(t)
  {
    assert s.arrived + [w] == WritersOf(s.groups) + (s.queue + [w]);
    if !s.phase.Idle? {
      var n := s.phase.n;
      assert t.queue[..n] == s.queue[..n];
    }
    forall i | 0 <= i < |t.log| ensures t.log[i].first + |t.log[i].ops| <= t.lastSequence + 1 || IsInHand(t, i) {
    }
  }

  /** A group of `n` leaves. */
  lemma DepartKeepsInv(s: State, n: nat, g: Group)
    requires QueueOk(s.arrived, s.left, s.queue, s.groups) && GroupsOk(s.groups, s.log, s.synced)
    requires s.lastSequence == Count(s.groups) && s.fileStart <= |s.log|
    requires 1 <= n <= |s.queue| && g.writers == s.queue[..n] && g.first == s.lastSequence + 1
    requires GroupOk(g, s.log, s.synced) && s.mem == Applied(s.groups + [g])
    requires LogOrdered(Departed(s, n, g.ops, g.status, g.record))
    ensures Inv(Departed(s, n, g.ops, g.status, g.record))
  {
    GroupsGrow(s.groups, g, s.log, s.synced);
    QueueMoves(s.arrived, s.left, s.queue, s.groups, n, g);
    var t := Departed(s, n, g.ops, g.status, g.record);
    assert t.groups == s.groups + [g];
    IdleInv(t);
  }

  lemma IdleInv(t: State)
    requires t.phase.Idle? && QueueOk(t.arrived, t.left, t.queue, t.groups) && t.lastSequence == Count(t.groups)
    requires GroupsOk(t.groups, t.log, t.synced) && t.mem == Applied(t.groups) && t.fileStart <= |t.log| && LogOrdered(t)
    ensures Inv(t)
  {
    assert Applied(t.groups) + [] == Applied(t.groups);
  }

  /** A leader alone, without anything to log. */
  lemma DepartIdle(s: State, st: Status, t: State)
    requires Inv(s) && s.phase.Idle? && s.queue != [] && t == Departed(s, 1, [], st, None)
    requires st.Ok? ==> s.queue[0].batch.None?
    ensures Inv(t)
  {
    var g := Group(s.queue[..1], s.lastSequence + 1, [], st, None);
    AppliedSnoc(s.groups, g);
    assert Stamp(Record(g.first, [])) == [] && Applied(s.groups) + [] == Applied(s.groups);
    LogAfter(s, 1, [], t);
    DepartKeepsInv(s, 1, g);
  }

  lemma QueueMoves(arrived: seq<Writer>, left: seq<(Writer, Status)>, queue: seq<Writer>, gs: seq<Group>, n: nat, g: Group)
    requires QueueOk(arrived, left, queue, gs) && n <= |queue| && g.writers == queue[..n]
    ensures QueueOk(arrived, left + StatusOf(queue[..n], g.status), queue[n..], gs + [g])
  {
    assert (gs + [g])[..|gs|] == gs;
    assert WritersOf(gs) + queue == WritersOf(gs) + queue[..n] + queue[n..];
  }

  lemma GroupsGrow(gs: seq<Group>, g: Group, log: seq<Record>, synced: set<nat>)
    requires GroupsOk(gs, log, synced) && GroupOk(g, log, synced) && g.first == Count(gs) + 1
    ensures GroupsOk(gs + [g], log, synced)
    ensures Count(gs + [g]) == Count(gs) + |g.ops|
  {
    var all := gs + [g];
    assert all[..|gs|] == gs;
    forall i | 0 <= i < |all| ensures GroupOk(all[i], log, synced) && all[i].first == Count(all[..i]) + 1 {
      if i < |gs| {
        assert all[..i] == gs[..i];
      }
    }
  }

  lemma LogAfter(s: State, n: nat, ops: seq<(UserKey, Op)>, t: State)
    requires LogOrdered(s) && 1 <= n <= |s.queue| && t.log == s.log && t.lastSequence == s.lastSequence + |ops|
    requires s.phase.Finished? ==> n == s.phase.n && ops == OpsOf(s.queue[..n])
    requires s.phase.Finished? || s.phase.Idle?
    ensures LogOrdered(t)
  {
    forall i | 0 <= i < |t.log| ensures t.log[i].first + |t.log[i].ops| <= t.lastSequence + 1 {
      if IsInHand(s, i) {
        assert s.log[i] == Record(s.lastSequence + 1, ops);
      }
    }
  }

  lemma AppliedSnoc(gs: seq<Group>, g: Group)
    ensures Applied(gs + [g]) == Applied(gs) + if g.status.Ok? then Stamp(Record(g.first, g.ops)) else []
  {
    assert (gs + [g])[..|gs|] == gs;
  }

  lemma AddRecordKeepsInv(s: State, ok: bool, t: State)
    requires Inv(s) && Next(s, AddRecord(ok), t)
    ensures Inv(t)
  {
    forall i | 0 <= i < |t.groups| ensures GroupOk(t.groups[i], t.log, t.synced) {
      assert GroupOk(s.groups[i], s.log, s.synced);
    }
    forall i | 0 <= i < |t.log| ensures t.log[i].first + |t.log[i].ops| <= t.lastSequence + 1 || IsInHand(t, i) {
      if i < |s.log| {
        assert t.log[i] == s.log[i] && !IsInHand(s, i);
      }
    }
  }

  lemma SyncKeepsInv(s: State, ok: bool, t: State)
    requires Inv(s) && Next(s, Sync(ok), t)
    ensures Inv(t)
  {
    forall i | 0 <= i < |t.groups| ensures GroupOk(t.groups[i], t.log, t.synced) {
      assert GroupOk(s.groups[i], s.log, s.synced);
    }
    StillInHand(s, t);
  }

  lemma InsertKeepsInv(s: State, t: State)
    requires Inv(s) && Next(s, Insert, t)
    ensures Inv(t)
  {
    assert s.mem == Applied(s.groups) && t.mem == Applied(t.groups) + Stamp(t.log[|t.log| - 1]);
    StillInHand(s, t);
  }

  lemma StillInHand(s: State, t: State)
    requires LogOrdered(s) && t.log == s.log && t.lastSequence == s.lastSequence && t.queue == s.queue
    requires (s.phase.Logged? || s.phase.Synced?) && (t.phase.Synced? || t.phase.Finished?) && t.phase.n == s.phase.n
    ensures LogOrdered(t)
  {
    forall i | 0 <= i < |t.log| ensures t.log[i].first + |t.log[i].ops| <= t.lastSequence + 1 || IsInHand(t, i) {
      assert IsInHand(s, i) ==> IsInHand(t, i);
    }
  }

  lemma BuildKeepsInv(s: State, t: State)
    requires Inv(s) && Next(s, Build, t)
    ensures Inv(t)
  {
    GroupLengthIs(s.queue);
    forall i | 0 <= i < |t.log| ensures t.log[i].first + |t.log[i].ops| <= t.lastSequence + 1 {
      assert !IsInHand(s, i);
    }
  }

  lemma LeaveKeepsInv(s: State, t: State)
    requires Inv(s) && Next(s, Leave, t)
    ensures Inv(t)
  {
    var n, st := s.phase.n, s.phase.status;
    var g := Group(s.queue[..n], s.lastSequence + 1, OpsOf(s.queue[..n]), st, Mine(s));
    if st.Ok? && exists i :: 0 <= i < |g.writers| && g.writers[i].sync {
      var i :| 0 <= i < |g.writers| && g.writers[i].sync;
      assert s.queue[i].sync;
      assert s.queue[0].sync;
    }
    assert GroupOk(g, s.log, s.synced);
    AppliedSnoc(s.groups, g);
    LogAfter(s, n, g.ops, t);
    DepartKeepsInv(s, n, g);
  }

  lemma NextKeepsInv(s: State, step: Step, t: State)
    requires Inv(s) && Next(s, step, t)
    ensures Inv(t)
  {
    match step {
      case Arrive(w) => ArriveKeepsInv(s, w, t);
      case MakeRoomFails => DepartIdle(s, Failed, t);
      case Compaction => DepartIdle(s, Ok, t);
      case SwitchLog =>
        forall i | 0 <= i < |t.log| ensures t.log[i].first + |t.log[i].ops| <= t.lastSequence + 1 {
          assert !IsInHand(s, i);
        }
      case Build => BuildKeepsInv(s, t);
      case AddRecord(ok) => AddRecordKeepsInv(s, ok, t);
      case Sync(ok) => SyncKeepsInv(s, ok, t);
      case Insert => InsertKeepsInv(s, t);
      case Leave => LeaveKeepsInv(s, t);
    }
  }

  // Over whole runs

  ghost predicate IsRun(states: seq<State>, steps: seq<Step>) {
    && |states| == |steps| + 1 && states[0] == Init()
    && forall i :: 0 <= i < |steps| ==> Next(states[i], steps[i], states[i + 1])
  }

  lemma {:induction false} RunKeepsInv(states: seq<State>, steps: seq<Step>, i: nat)
    requires IsRun(states, steps) && i < |states|
    ensures Inv(states[i])
  {
    if i > 0 {
      RunKeepsInv(states, steps, i - 1);
      NextKeepsInv(states[i - 1], steps[i - 1], states[i]);
    } else {
      InitInv();
    }
  }

  lemma {:induction false} WritersLeft(gs: seq<Group>)
    ensures |LeftOf(gs)| == |WritersOf(gs)|
    ensures forall i :: 0 <= i < |LeftOf(gs)| ==> LeftOf(gs)[i].0 == WritersOf(gs)[i]
  {
    if gs != [] {
      WritersLeft(gs[..|gs| - 1]);
    }
  }

  /** In every run writers leave in the order they came, each once and with the status of its own
      group, and the others wait in that order. */
  lemma FirstInFirstOut(states: seq<State>, steps: seq<Step>, i: nat)
    requires IsRun(states, steps) && i < |states|
    ensures var s := states[i];
            && |s.left| <= |s.arrived| && s.queue == s.arrived[|s.left|..]
            && s.left == LeftOf(s.groups) && |WritersOf(s.groups)| == |s.left|
            && forall j :: 0 <= j < |s.left| ==> s.left[j].0 == s.arrived[j]
  {
    RunKeepsInv(states, steps, i);
    WritersLeft(states[i].groups);
  }

  lemma {:induction false} Ascending(gs: seq<Group>)
    requires forall i :: 0 <= i < |gs| ==> gs[i].first == Count(gs[..i]) + 1
    ensures forall i :: 0 <= i < |Applied(gs)| ==> Applied(gs)[i].sequence <= Count(gs)
    ensures forall i, j :: 0 <= i < j < |Applied(gs)| ==> Applied(gs)[i].sequence < Applied(gs)[j].sequence
  {
    if gs != [] {
      var front := gs[..|gs| - 1];
      forall i | 0 <= i < |front| ensures front[i].first == Count(front[..i]) + 1 {
        assert front[..i] == gs[..i];
      }
      Ascending(front);
    }
  }

  /** Operation `j` of a group's writer `k`, with the sequence number its place in the queue gives. */
  ghost function OpEntry(g: Group, k: nat, j: nat): Entry
    requires k < |g.writers| && j < |BatchOf(g.writers[k])|
  {
    Entry(BatchOf(g.writers[k])[j].0, g.first + Offset(g.writers, k) + j, BatchOf(g.writers[k])[j].1)
  }

  lemma {:induction false} GroupIsApplied(gs: seq<Group>, g: nat)
    requires g < |gs| && gs[g].status.Ok?
    ensures forall e :: e in Stamp(Record(gs[g].first, gs[g].ops)) ==> e in Applied(gs)
  {
    if g < |gs| - 1 {
      GroupIsApplied(gs[..|gs| - 1], g);
    }
  }

  /** In every run the groups have consecutive sequence numbers in queue order; the memtable got the
      operations of the groups that succeeded, in that order; and the log has them in that order too. */
  lemma OneSerialOrder(states: seq<State>, steps: seq<Step>, i: nat)
    requires IsRun(states, steps) && i < |states|
    ensures var s := states[i];
            && (forall g :: 0 <= g < |s.groups| ==> s.groups[g].first == Count(s.groups[..g]) + 1)
            && Applied(s.groups) <= s.mem
            && (forall a, b :: 0 <= a < b < |s.log| ==> s.log[a].first + |s.log[a].ops| <= s.log[b].first)
            && (forall g :: 0 <= g < |s.groups| && s.groups[g].record.Some? ==>
                  && s.groups[g].record.value < |s.log|
                  && s.log[s.groups[g].record.value] == Record(s.groups[g].first, s.groups[g].ops))
            && (forall a, b :: 0 <= a < b < |Applied(s.groups)| ==> Applied(s.groups)[a].sequence < Applied(s.groups)[b].sequence)
  {
    RunKeepsInv(states, steps, i);
    var s := states[i];
    Ascending(s.groups);
    forall g | 0 <= g < |s.groups| && s.groups[g].record.Some?
      ensures s.groups[g].record.value < |s.log| && s.log[s.groups[g].record.value] == Record(s.groups[g].first, s.groups[g].ops)
    {
      assert GroupOk(s.groups[g], s.log, s.synced);
    }
  }

  /** No write gets lost in a group: in every run, every operation of every writer that left with OK
      is in the memtable, and in a log record of its group, at the sequence number its place in the
      queue gives. */
  lemma EveryWriteArrives(states: seq<State>, steps: seq<Step>, i: nat, g: nat, k: nat, j: nat)
    requires IsRun(states, steps) && i < |states| && g < |states[i].groups| && k < |states[i].groups[g].writers|
    requires j < |BatchOf(states[i].groups[g].writers[k])| && states[i].groups[g].status.Ok?
    ensures var s, group := states[i], states[i].groups[g];
            && OpEntry(group, k, j) in s.mem
            && group.first == Count(s.groups[..g]) + 1 && |group.ops| == Offset(group.writers, |group.writers|)
            && group.record.Some? && group.record.value < |s.log| && s.log[group.record.value].first == group.first
            && HasBatch(group.writers, s.log[group.record.value].ops, k)
  {
    RunKeepsInv(states, steps, i);
    var s := states[i];
    OkGroup(s.groups, g, k, s.log, s.synced);
    OpIsApplied(s.groups, g, k, j);
    assert Applied(s.groups) <= s.mem;
  }

  lemma OpIsApplied(groups: seq<Group>, g: nat, k: nat, j: nat)
    requires g < |groups| && k < |groups[g].writers| && j < |BatchOf(groups[g].writers[k])| && groups[g].status.Ok?
    requires HasBatch(groups[g].writers, groups[g].ops, k)
    ensures OpEntry(groups[g], k, j) in Applied(groups)
  {
    GroupIsApplied(groups, g);
    OpIsStamped(groups[g], k, j);
  }

  lemma OpIsStamped(g: Group, k: nat, j: nat)
    requires k < |g.writers| && j < |BatchOf(g.writers[k])| && HasBatch(g.writers, g.ops, k)
    ensures OpEntry(g, k, j) in Stamp(Record(g.first, g.ops))
  {
    var at := Offset(g.writers, k);
    assert g.ops[at..at + |BatchOf(g.writers[k])|][j] == g.ops[at + j];
    assert Stamp(Record(g.first, g.ops))[at + j] == OpEntry(g, k, j);
  }

  lemma OkGroup(groups: seq<Group>, g: nat, k: nat, log: seq<Record>, synced: set<nat>)
    requires GroupsOk(groups, log, synced) && g < |groups| && k < |groups[g].writers|
    requires groups[g].writers[k].batch.Some? && groups[g].status.Ok?
    ensures groups[g].record.Some? && groups[g].record.value < |log|
    ensures log[groups[g].record.value] == Record(groups[g].first, groups[g].ops) && Joins(groups[g].writers, groups[g].ops)
  {
    assert GroupOk(groups[g], log, synced);
    OpsJoin(groups[g].writers);
  }

  /** In every run a sync writer that got OK was in a group whose record was synced, and the record
      has the writer's operations at their place. */
  lemma SyncMeansSynced(states: seq<State>, steps: seq<Step>, i: nat, g: nat, k: nat)
    requires IsRun(states, steps) && i < |states| && g < |states[i].groups| && k < |states[i].groups[g].writers|
    requires var w := states[i].groups[g].writers[k]; w.sync && w.batch.Some? && states[i].groups[g].status.Ok?
    ensures var s, group := states[i], states[i].groups[g];
            && group.record.Some? && group.record.value in s.synced && group.record.value < |s.log|
            && Joins(group.writers, s.log[group.record.value].ops)
  {
    RunKeepsInv(states, steps, i);
    SyncedGroup(states[i].groups, g, k, states[i].log, states[i].synced);
  }

  lemma SyncedGroup(groups: seq<Group>, g: nat, k: nat, log: seq<Record>, synced: set<nat>)
    requires GroupsOk(groups, log, synced) && g < |groups| && k < |groups[g].writers|
    requires groups[g].writers[k].sync && groups[g].writers[k].batch.Some? && groups[g].status.Ok?
    ensures groups[g].record.Some? && groups[g].record.value in synced && groups[g].record.value < |log|
    ensures Joins(groups[g].writers, log[groups[g].record.value].ops)
  {
    assert GroupOk(groups[g], log, synced);
    OpsJoin(groups[g].writers);
  }

  // The code takes machine steps

  /** A piece of a run. */
  datatype Trace = Trace(states: seq<State>, steps: seq<Step>)

  ghost predicate Reaches(s: State, tr: Trace, t: State) {
    && |tr.states| == |tr.steps| + 1 && tr.states[0] == s && tr.states[|tr.steps|] == t
    && forall i :: 0 <= i < |tr.steps| ==> Next(tr.states[i], tr.steps[i], tr.states[i + 1])
  }

  function Further(tr: Trace, step: Step, u: State): Trace {
    Trace(tr.states + [u], tr.steps + [step])
  }

  lemma ReachesOneMore(s: State, tr: Trace, t: State, step: Step, u: State)
    requires Reaches(s, tr, t) && Next(t, step, u)
    ensures Reaches(s, Further(tr, step, u), u)
  {
    var all := Further(tr, step, u);
    forall i | 0 <= i < |all.steps| ensures Next(all.states[i], all.steps[i], all.states[i + 1]) {
      if i < |tr.steps| {
        assert Next(tr.states[i], tr.steps[i], tr.states[i + 1]);
      }
    }
  }

  /** The fields Write works on. */
  class WriteQueue {
    var s: State

    constructor ()
      ensures s == Init()
    {
      s := Init();
    }

    method Take(ghost before: State, ghost tr: Trace, ghost step: Step, next: State) returns (ghost tr': Trace)
      requires Inv(s) && Reaches(before, tr, s) && Next(s, step, next)
      modifies this
      ensures s == next && Inv(s) && Reaches(before, tr', s)
    {
      NextKeepsInv(s, step, next);
      ReachesOneMore(before, tr, s, step, next);
      s := next;
      tr' := Further(tr, step, next);
    }

    /** AddRecord and, for a sync leader, Sync; `added` and `synced` are their outcomes. */
    method LogGroup(added: bool, synced: bool, ops: seq<(UserKey, Op)>, ghost before: State, ghost tr: Trace)
      returns (status: Status, ghost tr': Trace)
      requires Inv(s) && Reaches(before, tr, s) && s.phase.Built? && s.phase.n <= |s.queue| && ops == OpsOf(s.queue[..s.phase.n])
      modifies this
      ensures Inv(s) && Reaches(before, tr', s) && s.queue == old(s).queue && s.lastSequence == old(s).lastSequence
      ensures status == if added && (s.queue[0].sync ==> synced) then Ok else Failed
      ensures if status.Failed? then s.phase == Finished(old(s).phase.n, Failed)
              else s.phase == if s.queue[0].sync then Synced(old(s).phase.n) else Logged(old(s).phase.n)
    {
      var n, sync := s.phase.n, s.queue[0].sync;
      if !added {
        tr' := Take(before, tr, AddRecord(false), s.(phase := Finished(n, Failed)));
        return Failed, tr';
      }
      tr' := Take(before, tr, AddRecord(true), s.(phase := Logged(n), log := s.log + [Record(s.lastSequence + 1, ops)]));
      if sync && !synced {
        tr' := Take(before, tr', Sync(false), s.(phase := Finished(n, Failed), error := true));
        return Failed, tr';
      }
      if sync {
        tr' := Take(before, tr', Sync(true), s.(phase := Synced(n), synced := s.synced + Since(s.fileStart, |s.log|)));
      }
      status := Ok;
    }

    /** InsertInto, when the group is logged, and then the group leaves. */
    method ApplyGroup(status: Status, ops: seq<(UserKey, Op)>, ghost before: State, ghost tr: Trace) returns (ghost tr': Trace)
      requires Inv(s) && Reaches(before, tr, s) && !s.phase.Idle? && s.phase.n <= |s.queue| && ops == OpsOf(s.queue[..s.phase.n])
      requires if status.Failed? then s.phase == Finished(s.phase.n, Failed)
               else s.log != [] && s.phase == if s.queue[0].sync then Synced(s.phase.n) else Logged(s.phase.n)
      modifies this
      ensures Inv(s) && Reaches(before, tr', s) && s.phase.Idle?
      ensures s.queue == old(s).queue[old(s).phase.n..] && s.left == old(s).left + StatusOf(old(s).queue[..old(s).phase.n], status)
    {
      var n := s.phase.n;
      tr' := tr;
      if status.Ok? {
        tr' := Take(before, tr', Insert, s.(phase := Finished(n, Ok), mem := s.mem + Stamp(s.log[|s.log| - 1])));
      }
      tr' := Take(before, tr', Leave, Departed(s, n, ops, status, Mine(s)));
    }

    /** Write, from where the writer is at the front and has made room. */
    method Lead(added: bool, synced: bool) returns (status: Status, ghost tr: Trace)
      requires Inv(s) && s.phase.Idle? && !s.error && s.queue != []
      modifies this
      ensures Inv(s) && Reaches(old(s), tr, s) && s.phase.Idle?
      ensures status == if old(s).queue[0].batch.None? || (added && (old(s).queue[0].sync ==> synced)) then Ok else Failed
    {
      ghost var before := s;
      tr := Trace([s], []);
      if s.queue[0].batch.None? {
        tr := Take(before, tr, Compaction, Departed(s, 1, [], Ok, None));
        return Ok, tr;
      }
      var n, ops := BuildBatchGroup(s.queue);
      tr := Take(before, tr, Build, s.(phase := Built(n)));
      status, tr := LogGroup(added, synced, ops, before, tr);
      assert status.Ok? ==> s.log != [];
      tr := ApplyGroup(status, ops, before, tr);
    }
  }
}
