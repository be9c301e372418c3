/** Readers that search the skip list while an insertion is under way, one pointer load at a
    time, and with any height the list has ever had as their starting level. */
module SkipListRaces {
  import opened Keys
  import opened SkipList

  /** An insertion under way: `level` levels are linked in, and `own` says whether the new
      node's own pointer at that level has been set. */
  datatype Insertion = Insertion(key: Key, height: nat, prev: seq<Ref>, level: nat, own: bool)

  /** A search: what it wants, where it is, and the keys that were in the list when it began. */
  datatype Reader =
    | Searching(query: Query, at: Ref, level: nat, seen: set<Key>)
    | Finished(query: Query, at: Ref, next: Ref, seen: set<Key>, contents: set<Key>)

  datatype State = State(next: Links, maxHeight: nat, linked: seq<set<Key>>, writer: Option<Insertion>, readers: map<nat, Reader>)

  datatype Step =
    | StartInsert(insertion: Insertion)
    | RaiseHeight
    | SetOwnNext
    | Publish
    | EndInsert
    | StartSearch(newReader: nat, query: Query, height: nat)
    | Load(reader: nat)

  ghost predicate Begins(s: State, w: Insertion, t: State) {
    // the search for prev, by the only writer
    && s.writer.None? && |s.linked| == MAX_HEIGHT && w.key !in s.linked[0] && 1 <= w.height <= MAX_HEIGHT
    && w.level == 0 && !w.own && |w.prev| == MAX_HEIGHT
    && (forall i :: 0 <= i < MAX_HEIGHT ==> IsPred(s.linked[i], w.key, w.prev[i]))
    && (forall i :: s.maxHeight <= i < MAX_HEIGHT ==> w.prev[i] == Head)
    && t == s.(writer := Some(w))
  }

  ghost predicate Raises(s: State, t: State) {
    && s.writer.Some? && s.writer.value.level == 0 && !s.writer.value.own && s.writer.value.height > s.maxHeight
    && t == s.(maxHeight := s.writer.value.height)
  }

  ghost predicate SetsOwn(s: State, t: State) {
    s.writer.Some? &&
    var w := s.writer.value;
    && w.level < w.height && !w.own && w.height <= s.maxHeight && w.level < |s.next| && w.level < |w.prev|
    && w.prev[w.level] in s.next[w.level]
    && t == s.(next := s.next[w.level := s.next[w.level][At(w.key) := s.next[w.level][w.prev[w.level]]]],
               writer := Some(w.(own := true)))
  }

  ghost predicate Publishes(s: State, t: State) {
    s.writer.Some? &&
    var w := s.writer.value;
    && w.level < w.height && w.own && w.level < |s.next| && w.level < |w.prev| && w.level < |s.linked|
    && t == s.(next := s.next[w.level := s.next[w.level][w.prev[w.level] := At(w.key)]],
               linked := s.linked[w.level := s.linked[w.level] + {w.key}],
               writer := Some(w.(level := w.level + 1, own := false)))
  }

  ghost predicate Ends(s: State, t: State) {
    s.writer.Some? && s.writer.value.level == s.writer.value.height && t == s.(writer := None)
  }

  /** GetMaxHeight may return a stale value. */
  ghost predicate Searches(s: State, id: nat, q: Query, height: nat, t: State) {
    && id !in s.readers && 1 <= height <= s.maxHeight && |s.linked| == MAX_HEIGHT
    && t == s.(readers := s.readers[id := Searching(q, Head, height - 1, s.linked[0])])
  }

  /** One turn of the loop in FindGreaterOrEqual, FindLessThan or FindLast. */
  ghost predicate Loads(s: State, id: nat, t: State) {
    id in s.readers && s.readers[id].Searching? && |s.linked| == MAX_HEIGHT &&
    var r := s.readers[id];
    r.level < |s.next| && r.at in s.next[r.level] &&
    var next := s.next[r.level][r.at];
    var r' := if next.At? && Passes(r.query, next.key) then Searching(r.query, next, r.level, r.seen)
              else if r.level == 0 then Finished(r.query, r.at, next, r.seen, s.linked[0])
              else Searching(r.query, r.at, r.level - 1, r.seen);
    t == s.(readers := s.readers[id := r'])
  }

  ghost predicate Next(s: State, step: Step, t: State) {
    match step
    case StartInsert(w) => Begins(s, w, t)
    case RaiseHeight => Raises(s, t)
    case SetOwnNext => SetsOwn(s, t)
    case Publish => Publishes(s, t)
    case EndInsert => Ends(s, t)
    case StartSearch(id, q, height) => Searches(s, id, q, height, t)
    case Load(id) => Loads(s, id, t)
  }

  function Init(): State {
    State(seq(MAX_HEIGHT, _ => map[Head := Null]), 1, seq(MAX_HEIGHT, _ => {}), None, map[])
  }

  ghost predicate WriterSound(next: Links, maxHeight: nat, linked: seq<set<Key>>, writer: Option<Insertion>)
    requires |next| == MAX_HEIGHT && |linked| == MAX_HEIGHT
  {
    writer.Some? ==>
      var w := writer.value;
      && w.level <= w.height <= MAX_HEIGHT && |w.prev| == MAX_HEIGHT
      && (w.level > 0 || w.own ==> w.height <= maxHeight)
      && (forall j :: 0 <= j < w.level ==> w.key in linked[j])
      && (forall j :: w.level <= j < MAX_HEIGHT ==> w.key !in linked[j] && IsPred(linked[j], w.key, w.prev[j]))
      && (w.own ==> w.level < w.height && At(w.key) in next[w.level] && w.prev[w.level] in next[w.level]
                    && next[w.level][At(w.key)] == next[w.level][w.prev[w.level]])
  }

  ghost predicate ReaderSound(linked: seq<set<Key>>, r: Reader)
    requires |linked| == MAX_HEIGHT
  {
    match r
    case Searching(q, at, level, seen) =>
      level < MAX_HEIGHT && Member(linked[level], at) && (at.At? ==> Passes(q, at.key)) && seen <= linked[0]
    case Finished(q, at, next, seen, contents) =>
      Found(contents, q, at, next) && seen <= contents <= linked[0]
  }

  ghost predicate Inv(s: State) {
    && Shape(s.next, s.maxHeight, s.linked)
    && WriterSound(s.next, s.maxHeight, s.linked, s.writer)
    && forall id :: id in s.readers ==> ReaderSound(s.linked, s.readers[id])
  }

  /** Readers do not mind keys being linked in. */
  lemma ReadersKeep(linked: seq<set<Key>>, linked': seq<set<Key>>, r: Reader)
    requires |linked| == |linked'| == MAX_HEIGHT && ReaderSound(linked, r)
    requires forall i :: 0 <= i < MAX_HEIGHT ==> linked[i] <= linked'[i]
    ensures ReaderSound(linked', r)
  {
  }

  lemma PublishKeepsInv(s: State, t: State)
    requires Inv(s) && Publishes(s, t)
    ensures Inv(t)
  {
    var w := s.writer.value;
    PublishKeepsShape(s.next, s.maxHeight, s.linked, w.level, w.key, w.prev[w.level]);
    forall id | id in t.readers
      ensures ReaderSound(t.linked, t.readers[id])
    {
      ReadersKeep(s.linked, t.linked, s.readers[id]);
    }
  }

  lemma SetOwnKeepsInv(s: State, t: State)
    requires Inv(s) && SetsOwn(s, t)
    ensures Inv(t)
  {
    var w := s.writer.value;
    OwnKeepsShape(s.next, s.maxHeight, s.linked, w.level, w.key, s.next[w.level][w.prev[w.level]]);
  }

  lemma LoadKeepsInv(s: State, id: nat, t: State)
    requires Inv(s) && Loads(s, id, t)
    ensures Inv(t)
  {
    var r := s.readers[id];
    assert Chain(s.next[r.level], s.linked[r.level]);
    assert r.level > 0 ==> s.linked[r.level] <= s.linked[r.level - 1];
  }

  lemma NextKeepsInv(s: State, step: Step, t: State)
    requires Inv(s) && Next(s, step, t)
    ensures Inv(t)
  {
    match step
    case StartInsert(w) =>
      assert forall j :: 0 <= j < MAX_HEIGHT ==> s.linked[j] <= s.linked[0];
    case RaiseHeight =>
    case SetOwnNext => SetOwnKeepsInv(s, t);
    case Publish => PublishKeepsInv(s, t);
    case EndInsert =>
    case StartSearch(id, q, height) =>
    case Load(id) => LoadKeepsInv(s, id, t);
  }

  /** The predecessors that StartInsert asks for are the ones a search by the writer records. */
  lemma SearchFindsPredecessors(s: State, key: Key, prev: seq<Ref>)
    requires Inv(s) && key !in s.linked[0] && |prev| == s.maxHeight
    requires forall i :: 0 <= i < s.maxHeight ==> StopsAt(s.next[i], s.linked[i], AtLeast(key), prev[i])
    ensures var full := prev + seq(MAX_HEIGHT - s.maxHeight, _ => Head);
            forall i :: 0 <= i < MAX_HEIGHT ==> IsPred(s.linked[i], key, full[i])
  {
    FoundIsPred(s.next, s.linked, s.maxHeight, key, prev);
  }

  ghost predicate Run(states: seq<State>, steps: seq<Step>) {
    && |states| == |steps| + 1 && states[0] == Init()
    && forall i :: 0 <= i < |steps| ==> Next(states[i], steps[i], states[i + 1])
  }

  lemma {:induction false} RunKeepsInv(states: seq<State>, steps: seq<Step>, n: nat)
    requires Run(states, steps) && n < |states|
    ensures Inv(states[n])
  {
    if n > 0 {
      RunKeepsInv(states, steps, n - 1);
      NextKeepsInv(states[n - 1], steps[n - 1], states[n]);
    }
  }

  /** At every moment of every run each level is a sorted part of the level below, linked from
      the head, whatever the writer is in the middle of. */
  lemma LevelsAlwaysNested(states: seq<State>, steps: seq<Step>, n: nat, i: nat, p: Ref)
    requires Run(states, steps) && n < |states| && i < |states[n].linked| && Member(states[n].linked[i], p)
    ensures i < |states[n].next| && p in states[n].next[i] && IsSucc(states[n].linked[i], p, states[n].next[i][p])
    ensures i > 0 ==> states[n].linked[i] <= states[n].linked[i - 1]
  {
    RunKeepsInv(states, steps, n);
    assert Chain(states[n].next[i], states[n].linked[i]);
  }

  /** A reader never follows a pointer that has not been set. */
  lemma ReadersNeverDangle(states: seq<State>, steps: seq<Step>, n: nat, id: nat)
    requires Run(states, steps) && n < |states| && id in states[n].readers && states[n].readers[id].Searching?
    ensures exists t :: Loads(states[n], id, t)
  {
    RunKeepsInv(states, steps, n);
    var s, r := states[n], states[n].readers[id];
    assert Chain(s.next[r.level], s.linked[r.level]);
    var next := s.next[r.level][r.at];
    var r' := if next.At? && Passes(r.query, next.key) then Searching(r.query, next, r.level, r.seen)
              else if r.level == 0 then Finished(r.query, r.at, next, r.seen, s.linked[0])
              else Searching(r.query, r.at, r.level - 1, r.seen);
    assert Loads(s, id, s.(readers := s.readers[id := r']));
  }

  /** A finished search is exact for the contents the list had at its last load, and those
      include every key that was present when the search began. */
  lemma SearchesAreLinearizable(states: seq<State>, steps: seq<Step>, n: nat, id: nat)
    requires Run(states, steps) && n < |states| && id in states[n].readers && states[n].readers[id].Finished?
    ensures var r := states[n].readers[id];
            && |states[n].linked| == MAX_HEIGHT && r.seen <= r.contents <= states[n].linked[0] && Found(r.contents, r.query, r.at, r.next)
            && (r.query.AtLeast? && r.query.target in r.seen ==> r.next == At(r.query.target))
            && (r.query.AtLeast? ==> forall k :: k in r.seen && k >= r.query.target ==> r.next.At? && r.query.target <= r.next.key <= k)
            && (!r.query.AtLeast? ==> forall k :: k in r.seen && Passes(r.query, k) ==> r.at.At? && k <= r.at.key)
  {
    RunKeepsInv(states, steps, n);
    var r := states[n].readers[id];
    FoundIsExact(r.contents, r.query, r.at, r.next);
  }
}
