/** Byte strings, user keys and internal keys.

The database orders user keys by a comparator supplied by the application.  All that the
engine may assume about it is that it is a total order on byte strings, and byte strings are
countable, so the order embeds in the real line.  A `UserKey` is the position of a key on
that line; two keys that the comparator calls equal have the same position.  For the default
comparator the embedding is written out (`Rank`) and proved exact (`RankIsBytewiseOrder`).
 */
module Keys {
  type Byte = b: int | 0 <= b < 256
  type Bytes = seq<Byte>

  datatype Option<+T> = None | Some(value: T)

  /** Slice::compare: the bytewise order, a proper prefix coming first. */
  function BytewiseCompare(a: Bytes, b: Bytes): (r: int)
  {
    if a == [] && b == [] then 0
    else if a == [] then -1
    else if b == [] then 1
    else if a[0] != b[0] then (if a[0] < b[0] then -1 else 1)
    else BytewiseCompare(a[1..], b[1..])
  }

  /** Reads a key as a fraction in base 257, the byte b being the digit b + 1. */
  ghost function Rank(k: Bytes): (r: real)
    ensures 0.0 <= r < 1.0
  {
    if k == [] then 0.0 else (k[0] as real + 1.0 + Rank(k[1..])) / 257.0
  }

  /** The default comparator is the order of the ranks, and only equal keys share a rank. */
  lemma {:induction false} RankIsBytewiseOrder(a: Bytes, b: Bytes)
    ensures BytewiseCompare(a, b) < 0 <==> Rank(a) < Rank(b)
    ensures BytewiseCompare(a, b) == 0 <==> Rank(a) == Rank(b)
    ensures Rank(a) == Rank(b) <==> a == b
  {
    if a != [] && b != [] {
      if a[0] < b[0] {
        assert a[0] as real + Rank(a[1..]) < b[0] as real + Rank(b[1..]);
      } else if a[0] > b[0] {
        assert a[0] as real + Rank(a[1..]) > b[0] as real + Rank(b[1..]);
      } else {
        RankIsBytewiseOrder(a[1..], b[1..]);
        assert a == [a[0]] + a[1..] && b == [b[0]] + b[1..];
      }
    }
  }

  type UserKey = real

  /** kMaxSequenceNumber: a sequence number has to leave eight bits for the type. */
  const MAX_SEQUENCE := 0xFF_FFFF_FFFF_FFFF

  datatype Op = Put(value: Bytes) | Delete
  datatype Entry = Entry(user: UserKey, sequence: nat, op: Op)

  /** An internal key: the user key and the packed sequence number and type. */
  datatype IKey = IKey(user: UserKey, tag: nat)

  function KeyOf(e: Entry): IKey {
    IKey(e.user, 256 * e.sequence + (if e.op.Put? then 1 else 0))
  }

  /** The key LookupKey builds: it sorts just ahead of the entries that snapshot `s` may see. */
  function SeekKey(u: UserKey, s: nat): IKey {
    IKey(u, 256 * s + 1)
  }

  /** InternalKeyComparator::Compare(a, b) < 0: user key up, then tag down. */
  predicate Before(a: IKey, b: IKey) {
    a.user < b.user || (a.user == b.user && a.tag > b.tag)
  }

  predicate AtOrBefore(a: IKey, b: IKey) {
    a == b || Before(a, b)
  }

  predicate Sorted(es: seq<Entry>) {
    forall i, j :: 0 <= i < j < |es| ==> Before(KeyOf(es[i]), KeyOf(es[j]))
  }

  function EntrySet(es: seq<Entry>): set<Entry> {
    set e | e in es
  }

  /** No two operations ever share a sequence number. */
  ghost predicate Unique(entries: set<Entry>) {
    forall x, y :: x in entries && y in entries && x.sequence == y.sequence ==> x == y
  }
}

/** What a read means: the newest entry of a key that the snapshot may see, over all entries. */
module Reads {
  import opened Keys

  predicate Visible(e: Entry, u: UserKey, s: nat) {
    e.user == u && e.sequence <= s
  }

  ghost predicate Newest(entries: set<Entry>, u: UserKey, s: nat, e: Entry) {
    && e in entries && Visible(e, u, s)
    && forall x :: x in entries && Visible(x, u, s) ==> x.sequence <= e.sequence
  }

  ghost predicate NoneVisible(entries: set<Entry>, u: UserKey, s: nat) {
    forall x :: x in entries ==> !Visible(x, u, s)
  }

  /** The value of user key `u` at snapshot `s`; None when absent or deleted. */
  ghost function Read(entries: set<Entry>, u: UserKey, s: nat): Option<Bytes> {
    if exists e :: Newest(entries, u, s, e) then
      var e :| Newest(entries, u, s, e);
      Outcome(e)
    else
      None
  }

  /** A finite set that has a visible entry has a newest one. */
  lemma {:induction false} NewestExists(entries: set<Entry>, u: UserKey, s: nat)
    ensures NoneVisible(entries, u, s) || exists e :: Newest(entries, u, s, e)
    decreases entries
  {
    if !NoneVisible(entries, u, s) {
      var x :| x in entries && Visible(x, u, s);
      var rest := entries - {x};
      NewestExists(rest, u, s);
      if NoneVisible(rest, u, s) {
        assert Newest(entries, u, s, x);
      } else {
        var y :| Newest(rest, u, s, y);
        assert Newest(entries, u, s, if x.sequence <= y.sequence then y else x);
      }
    }
  }

  /** The newest entry decides the read; without one the read finds nothing. */
  lemma ReadIs(entries: set<Entry>, u: UserKey, s: nat, e: Entry)
    requires Unique(entries) && Newest(entries, u, s, e)
    ensures Read(entries, u, s) == Outcome(e)
  {
    forall y | Newest(entries, u, s, y)
      ensures y == e
    {
      assert e in entries && Visible(e, u, s) && y in entries && Visible(y, u, s);
    }
  }

  /** Entries a snapshot cannot see do not matter to it. */
  lemma SameVisible(a: set<Entry>, hidden: set<Entry>, u: UserKey, s: nat)
    requires Unique(a + hidden) && NoneVisible(hidden, u, s)
    ensures Read(a + hidden, u, s) == Read(a, u, s)
  {
    NewestExists(a, u, s);
    if NoneVisible(a, u, s) {
      assert NoneVisible(a + hidden, u, s);
    } else {
      var e :| Newest(a, u, s, e);
      assert Newest(a + hidden, u, s, e);
      ReadIs(a, u, s, e);
      ReadIs(a + hidden, u, s, e);
    }
  }

  /** Newer entries on top of two sets that read alike leave them reading alike. */
  lemma ReadsExtend(a: set<Entry>, b: set<Entry>, added: set<Entry>, u: UserKey, n: nat)
    requires Unique(a + added) && Unique(b + added)
    requires forall x, y :: x in added && y in a + b ==> x.sequence > y.sequence
    requires Read(a, u, n) == Read(b, u, n)
    ensures Read(a + added, u, n) == Read(b + added, u, n)
  {
    NewestExists(added, u, n);
    if NoneVisible(added, u, n) {
      SameVisible(a, added, u, n);
      SameVisible(b, added, u, n);
    } else {
      var e :| Newest(added, u, n, e);
      assert Newest(a + added, u, n, e) && Newest(b + added, u, n, e);
      ReadIs(a + added, u, n, e);
      ReadIs(b + added, u, n, e);
    }
  }

  function Outcome(e: Entry): Option<Bytes> {
    if e.op.Put? then Some(e.op.value) else None
  }
}
