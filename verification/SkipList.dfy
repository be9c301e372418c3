/** The skip list of db/skiplist.h, with one writer and any number of readers interleaved.

    Keys are positions in the memtable's key order, as in `Keys`; since no key is inserted
    twice, a node is named by its key.  Loads and stores of single pointers are the steps. */
module SkipList {
  import opened Keys

  type Key = UserKey

  const MAX_HEIGHT := 12

  datatype Ref = Head | At(key: Key) | Null

  /** next_[level] of every node that has that level, linked in or not yet. */
  type Links = seq<map<Ref, Ref>>

  predicate After(k: Key, p: Ref) {
    p.Head? || (p.At? && p.key < k)
  }

  /** `q` is the first key of `s` after `p`. */
  ghost predicate IsSucc(s: set<Key>, p: Ref, q: Ref) {
    && !q.Head?
    && (q.At? ==> q.key in s && After(q.key, p))
    && (forall k :: k in s && After(k, p) ==> q.At? && q.key <= k)
  }

  predicate Member(s: set<Key>, p: Ref) {
    p.Head? || (p.At? && p.key in s)
  }

  /** Every level is a sorted list of the keys `linked` at it, each a part of the one below. */
  ghost predicate Shape(next: Links, maxHeight: nat, linked: seq<set<Key>>) {
    && |next| == MAX_HEIGHT && |linked| == MAX_HEIGHT && 1 <= maxHeight <= MAX_HEIGHT
    && (forall i :: 0 <= i < MAX_HEIGHT ==> Chain(next[i], linked[i]))
    && (forall i, j :: 0 <= i <= j < MAX_HEIGHT ==> linked[j] <= linked[i])
    && (forall i :: maxHeight <= i < MAX_HEIGHT ==> linked[i] == {})
  }

  ghost predicate Chain(next: map<Ref, Ref>, s: set<Key>) {
    forall p :: Member(s, p) ==> p in next && IsSucc(s, p, next[p])
  }

  /** What a search looks for: Seek and Contains, Iterator::Prev, or SeekToLast. */
  datatype Query = AtLeast(target: Key) | LessThan(target: Key) | Last

  /** Whether the search moves on to a node with key `k`. */
  predicate Passes(q: Query, k: Key) {
    q.Last? || k < q.target
  }

  /** `x` and `next` are where the search of a list holding `s` ends. */
  ghost predicate Found(s: set<Key>, q: Query, x: Ref, next: Ref) {
    && Member(s, x) && IsSucc(s, x, next)
    && (x.At? ==> Passes(q, x.key)) && (next.At? ==> !Passes(q, next.key))
  }

  ghost predicate StopsAt(next: map<Ref, Ref>, s: set<Key>, q: Query, x: Ref) {
    x in next && Found(s, q, x, next[x])
  }

  /** Found answers the query: nothing at or after the target is skipped, and nothing before. */
  lemma FoundIsExact(s: set<Key>, q: Query, x: Ref, next: Ref)
    requires Found(s, q, x, next)
    ensures q.AtLeast? ==> (forall k :: k in s && k >= q.target ==> next.At? && next.key <= k)
    ensures q.AtLeast? && q.target in s ==> next == At(q.target)
    ensures q.AtLeast? && next.At? ==> next.key in s && next.key >= q.target
    ensures !q.AtLeast? ==> (forall k :: k in s && Passes(q, k) ==> x.At? && k <= x.key)
    ensures !q.AtLeast? && x.At? ==> x.key in s && Passes(q, x.key)
  {
    forall k | k in s && Passes(q, k)
      ensures x.At? && k <= x.key
    {
      assert !After(k, x);
    }
  }

  // One writer on its own

  class List {
    var next: Links
    var maxHeight: nat
    ghost var linked: seq<set<Key>>

    ghost predicate Valid()
      reads this
    {
      Shape(next, maxHeight, linked)
    }

    constructor ()
      ensures Valid() && linked[0] == {}
    {
      next := seq(MAX_HEIGHT, _ => map[Head := Null]);
      maxHeight := 1;
      linked := seq(MAX_HEIGHT, _ => {});
    }

    /** FindGreaterOrEqual, FindLessThan and FindLast: one descent.  `prev` holds where it left
        each level. */
    method Find(q: Query) returns (x: Ref, node: Ref, prev: seq<Ref>)
      requires Valid()
      ensures Found(linked[0], q, x, node)
      ensures |prev| == maxHeight
      ensures forall i :: 0 <= i < maxHeight ==> StopsAt(next[i], linked[i], q, prev[i])
    {
      x := Head;
      var level := maxHeight - 1;
      prev := [];
      while true
        invariant 0 <= level < maxHeight && |prev| == maxHeight - 1 - level
        invariant Member(linked[level], x) && (x.At? ==> Passes(q, x.key))
        invariant forall i :: level < i < maxHeight ==> StopsAt(next[i], linked[i], q, prev[i - level - 1])
        decreases level, |set k | k in linked[0] && After(k, x)|
      {
        assert Chain(next[level], linked[level]) && linked[level] <= linked[0];
        node := next[level][x];
        if node.At? && Passes(q, node.key) {
          FewerAhead(linked[0], x, node);
          x := node;
        } else {
          prev := [x] + prev;
          assert StopsAt(next[level], linked[level], q, x);
          if level == 0 {
            return;
          }
          level := level - 1;
          assert linked[level + 1] <= linked[level];
        }
      }
    }

    /** Insert, for the height drawn by RandomHeight. */
    method Insert(key: Key, height: nat)
      requires Valid() && key !in linked[0] && 1 <= height <= MAX_HEIGHT
      modifies this
      ensures Valid()
      ensures forall i :: 0 <= i < MAX_HEIGHT ==> linked[i] == if i < height then old(linked)[i] + {key} else old(linked)[i]
    {
      var x, node, prev := Find(AtLeast(key));
      FoundIsPred(next, linked, maxHeight, key, prev);
      if height > maxHeight {
        prev := prev + seq(height - maxHeight, _ => Head);
        maxHeight := height;
      }
      for i := 0 to height
        invariant Shape(next, maxHeight, linked) && height <= maxHeight && |prev| >= height
        invariant forall j :: i <= j < height ==> IsPred(linked[j], key, prev[j])
        invariant forall j :: 0 <= j < MAX_HEIGHT ==> linked[j] == if j < i then old(linked)[j] + {key} else old(linked)[j]
      {
        assert forall j :: i <= j < MAX_HEIGHT ==> key !in linked[j];
        LinkKeepsShape(next, maxHeight, linked, i, key, prev[i]);
        next := next[i := next[i][At(key) := next[i][prev[i]]]];
        next := next[i := next[i][prev[i] := At(key)]];
        linked := linked[i := linked[i] + {key}];
      }
    }

    method Contains(key: Key) returns (r: bool)
      requires Valid()
      ensures r <==> key in linked[0]
    {
      var x, node, _ := Find(AtLeast(key));
      FoundIsExact(linked[0], AtLeast(key), x, node);
      r := node == At(key);
    }
  }

  lemma FewerAhead(s: set<Key>, x: Ref, node: Ref)
    requires node.At? && node.key in s && After(node.key, x)
    ensures |set k | k in s && After(k, node)| < |set k | k in s && After(k, x)|
  {
    var a, b := set k | k in s && After(k, node), set k | k in s && After(k, x);
    assert a <= b - {node.key};
    Smaller(a, b - {node.key});
  }

  lemma Smaller(a: set<Key>, b: set<Key>)
    requires a <= b
    ensures |a| <= |b|
  {
    assert b == a + (b - a);
  }

  /** `p` is where a new key belongs: just after it. */
  ghost predicate IsPred(s: set<Key>, key: Key, p: Ref) {
    Member(s, p) && key !in s && After(key, p) && forall k :: k in s && After(k, p) ==> key < k
  }

  lemma FoundIsPred(next: Links, linked: seq<set<Key>>, maxHeight: nat, key: Key, prev: seq<Ref>)
    requires Shape(next, maxHeight, linked) && key !in linked[0] && |prev| == maxHeight
    requires forall i :: 0 <= i < maxHeight ==> StopsAt(next[i], linked[i], AtLeast(key), prev[i])
    ensures forall i :: 0 <= i < maxHeight ==> IsPred(linked[i], key, prev[i])
  {
    forall i | 0 <= i < maxHeight
      ensures IsPred(linked[i], key, prev[i])
    {
      assert linked[i] <= linked[0];
      FoundIsExact(linked[i], AtLeast(key), prev[i], next[i][prev[i]]);
    }
  }

  /** The new node's own pointer may be set before it is linked in: nobody can see it yet. */
  lemma OwnKeepsShape(next: Links, maxHeight: nat, linked: seq<set<Key>>, i: nat, key: Key, q: Ref)
    requires Shape(next, maxHeight, linked) && i < MAX_HEIGHT && key !in linked[i]
    ensures Shape(next[i := next[i][At(key) := q]], maxHeight, linked)
  {
    var own := next[i][At(key) := q];
    assert Chain(next[i], linked[i]);
    assert Chain(own, linked[i]);
  }

  /** The new node points onward before it is published, so publishing keeps the level sorted. */
  lemma PublishKeepsShape(next: Links, maxHeight: nat, linked: seq<set<Key>>, i: nat, key: Key, p: Ref)
    requires Shape(next, maxHeight, linked) && i < maxHeight && IsPred(linked[i], key, p)
    requires At(key) in next[i] && next[i][At(key)] == next[i][p]
    requires forall j :: 0 <= j < i ==> key in linked[j]
    requires forall j :: i <= j < MAX_HEIGHT ==> key !in linked[j]
    ensures Shape(next[i := next[i][p := At(key)]], maxHeight, linked[i := linked[i] + {key}])
  {
    assert Chain(next[i], linked[i]);
    LinkKeepsChain(next[i], linked[i], key, p);
  }

  lemma LinkKeepsShape(next: Links, maxHeight: nat, linked: seq<set<Key>>, i: nat, key: Key, p: Ref)
    requires Shape(next, maxHeight, linked) && i < maxHeight && IsPred(linked[i], key, p)
    requires forall j :: 0 <= j < i ==> key in linked[j]
    requires forall j :: i <= j < MAX_HEIGHT ==> key !in linked[j]
    ensures p in next[i]
    ensures var own := next[i := next[i][At(key) := next[i][p]]];
            Shape(own[i := own[i][p := At(key)]], maxHeight, linked[i := linked[i] + {key}])
  {
    assert Chain(next[i], linked[i]);
    OwnKeepsShape(next, maxHeight, linked, i, key, next[i][p]);
    PublishKeepsShape(next[i := next[i][At(key) := next[i][p]]], maxHeight, linked, i, key, p);
  }

  /** The new node points onward before it is published, so publishing keeps the level sorted. */
  lemma LinkKeepsChain(next: map<Ref, Ref>, s: set<Key>, key: Key, p: Ref)
    requires key !in s && IsPred(s, key, p)
    requires Chain(next, s) && At(key) in next && next[At(key)] == next[p]
    ensures Chain(next[p := At(key)], s + {key})
  {
  }
}
