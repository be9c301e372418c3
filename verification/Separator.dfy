/** util/comparator.cc and db/dbformat.cc: the order of encoded internal keys, and the short keys put
    between the blocks of a table. */
module Separator {
  import opened Keys
  import opened Coding
  import opened FilterBlock

  predicate UserLess(a: Bytes, b: Bytes) {
    BytewiseCompare(a, b) < 0
  }

  function TagOf(key: Bytes): nat {
    if |key| < 8 then 0 else DecodeFixed64(key[|key| - 8..])
  }

  /** InternalKeyComparator::Compare(a, b) < 0, on internal keys. */
  predicate Less(a: Bytes, b: Bytes) {
    && |a| >= 8 && |b| >= 8
    && (UserLess(UserOf(a), UserOf(b)) || (UserOf(a) == UserOf(b) && TagOf(a) > TagOf(b)))
  }

  lemma UserOrder(a: Bytes, b: Bytes, c: Bytes)
    ensures UserLess(a, b) && UserLess(b, c) ==> UserLess(a, c)
    ensures UserLess(a, b) || a == b || UserLess(b, a)
    ensures !(UserLess(a, b) && UserLess(b, a))
    ensures !UserLess(a, a)
    ensures BytewiseCompare(a, b) == 0 <==> a == b
  {
    RankIsBytewiseOrder(a, b);
    RankIsBytewiseOrder(b, a);
    RankIsBytewiseOrder(b, c);
    RankIsBytewiseOrder(a, c);
    RankIsBytewiseOrder(a, a);
  }

  lemma LessOrder(a: Bytes, b: Bytes, c: Bytes)
    ensures Less(a, b) && Less(b, c) ==> Less(a, c)
    ensures !Less(a, a)
    ensures !(Less(a, b) && Less(b, a))
  {
    UserOrder(UserOf(a), UserOf(b), UserOf(c));
    UserOrder(UserOf(a), UserOf(c), UserOf(b));
  }

  lemma {:induction false} FirstDifference(a: Bytes, b: Bytes, i: nat)
    requires i < |a| && i < |b| && a[..i] == b[..i] && a[i] != b[i]
    ensures UserLess(a, b) <==> a[i] < b[i]
  {
    if i > 0 {
      assert a[..i][0] == b[..i][0] && a[1..][..i - 1] == a[..i][1..] && b[1..][..i - 1] == b[..i][1..];
      FirstDifference(a[1..], b[1..], i - 1);
    }
  }

  predicate DifferAt(a: Bytes, b: Bytes, i: int) {
    0 <= i < |a| && i < |b| && a[..i] == b[..i] && a[i] != b[i]
  }

  /** The byte where `start` and `limit` part may be raised by one and stay below the limit's. */
  predicate HasRoom(start: Bytes, limit: Bytes, i: int) {
    DifferAt(start, limit, i) && start[i] < 0xff && start[i] + 1 < limit[i]
  }

  function Raised(s: Bytes, i: nat): Bytes
    requires i < |s| && s[i] < 0xff
  {
    s[..i] + [s[i] + 1]
  }

  /** BytewiseComparatorImpl::FindShortestSeparator: the string cut behind the byte where it parts from
      the limit, that byte raised, which lies strictly between the two; without room there, the string. */
  method FindShortestSeparator(start: Bytes, limit: Bytes) returns (s: Bytes)
    ensures s == start || (UserLess(start, s) && UserLess(s, limit))
    ensures forall i :: HasRoom(start, limit, i) ==> s == Raised(start, i)
    ensures (forall i :: !HasRoom(start, limit, i)) ==> s == start
  {
    var minLength := if |start| < |limit| then |start| else |limit|;
    var diffIndex := 0;
    s := start;
    while diffIndex < minLength && start[diffIndex] == limit[diffIndex]
      invariant diffIndex <= minLength && start[..diffIndex] == limit[..diffIndex]
    {
      diffIndex := diffIndex + 1;
    }
    forall i | DifferAt(start, limit, i) ensures i == diffIndex {
      OneDifference(start, limit, i, diffIndex);
    }
    if diffIndex < minLength {
      var diffByte: int := start[diffIndex];
      if diffByte < 0xff && diffByte + 1 < limit[diffIndex] {
        s := start[..diffIndex] + [diffByte + 1];
        assert HasRoom(start, limit, diffIndex) && s == Raised(start, diffIndex);
        assert s[..diffIndex] == start[..diffIndex];
        FirstDifference(start, s, diffIndex);
        FirstDifference(s, limit, diffIndex);
      }
    }
  }

  lemma OneDifference(a: Bytes, b: Bytes, i: nat, k: nat)
    requires DifferAt(a, b, i) && k <= |a| && k <= |b| && a[..k] == b[..k]
    requires k == |a| || k == |b| || a[k] != b[k]
    ensures i == k
  {
    SameFront(a, b, k);
    SameFront(a, b, i);
  }

  lemma SameFront(a: Bytes, b: Bytes, n: nat)
    requires n <= |a| && n <= |b| && a[..n] == b[..n]
    ensures forall j :: 0 <= j < n ==> a[j] == b[j]
  {
    forall j | 0 <= j < n ensures a[j] == b[j] {
      assert a[j] == a[..n][j] && b[j] == b[..n][j];
    }
  }

  /** FindShortSuccessor: the string cut behind its first byte that can be raised, that byte raised;
      the string itself when all its bytes are 0xff. */
  method FindShortSuccessor(key: Bytes) returns (s: Bytes)
    ensures s == key || UserLess(key, s)
    ensures forall i :: 0 <= i < |key| && key[i] < 0xff && (forall j :: 0 <= j < i ==> key[j] == 0xff) ==> s == Raised(key, i)
    ensures (forall i :: 0 <= i < |key| ==> key[i] == 0xff) ==> s == key
  {
    s := key;
    for i := 0 to |key|
      invariant forall j :: 0 <= j < i ==> key[j] == 0xff
    {
      if key[i] != 0xff {
        var byte: int := key[i];
        s := key[..i] + [byte + 1];
        assert s[..i] == key[..i];
        FirstDifference(key, s, i);
        return;
      }
    }
  }

  /** The tag that sorts first among those of a user key: the highest sequence number, to seek with. */
  const SEEK_TAG := 256 * MAX_SEQUENCE + 1

  lemma TackedOn(user: Bytes)
    ensures var k := user + Fixed64(SEEK_TAG); |k| >= 8 && UserOf(k) == user && TagOf(k) == SEEK_TAG
  {
    var k := user + Fixed64(SEEK_TAG);
    assert k[..|k| - 8] == user && k[|k| - 8..] == Fixed64(SEEK_TAG) + [];
    Fixed64RoundTrip(SEEK_TAG, []);
  }

  /** InternalKeyComparator::FindShortestSeparator: the key, or one whose user key is strictly
      between the user keys. */
  method InternalSeparator(start: Bytes, limit: Bytes) returns (sep: Bytes)
    requires |start| >= 8 && |limit| >= 8
    ensures |sep| >= 8
    ensures sep == start || (UserLess(UserOf(start), UserOf(sep)) && UserLess(UserOf(sep), UserOf(limit)))
    ensures forall i :: HasRoom(UserOf(start), UserOf(limit), i) && i + 1 < |UserOf(start)| ==>
              sep == Raised(UserOf(start), i) + Fixed64(SEEK_TAG)
    ensures (forall i :: HasRoom(UserOf(start), UserOf(limit), i) ==> i + 1 >= |UserOf(start)|) ==> sep == start
  {
    var userStart := UserOf(start);
    var tmp := FindShortestSeparator(userStart, UserOf(limit));
    sep := start;
    if |tmp| < |userStart| && UserLess(userStart, tmp) {
      TackedOn(tmp);
      sep := tmp + Fixed64(SEEK_TAG);
    }
  }

  /** InternalKeyComparator::FindShortSuccessor. */
  method InternalSuccessor(key: Bytes) returns (succ: Bytes)
    requires |key| >= 8
    ensures |succ| >= 8
    ensures succ == key || (UserLess(UserOf(key), UserOf(succ)) && |UserOf(succ)| < |UserOf(key)| && TagOf(succ) == SEEK_TAG)
  {
    var userKey := UserOf(key);
    var tmp := FindShortSuccessor(userKey);
    succ := key;
    if |tmp| < |userKey| && UserLess(userKey, tmp) {
      TackedOn(tmp);
      succ := tmp + Fixed64(SEEK_TAG);
    }
  }
}
