/** DBIter: versions and deletion markers folded away, in both directions.

    The iterator is measured against the live entries of a snapshot: for every user key the
    newest entry the snapshot sees, unless that is a deletion marker. */
module DbIter {
  import opened Keys
  import opened Reads
  import opened Merger

  /** Entry `i` is what a read of its key at snapshot `q` returns. */
  ghost predicate LiveAt(all: seq<Entry>, q: nat, i: int) {
    && 0 <= i < |all| && all[i].op.Put? && all[i].sequence <= q
    && forall k :: 0 <= k < i && all[k].user == all[i].user ==> all[k].sequence > q
  }

  /** `r` is the first live entry from index `from` on. */
  ghost predicate FirstLive(all: seq<Entry>, q: nat, from: int, r: Option<nat>) {
    && (r.Some? ==> r.value >= from && LiveAt(all, q, r.value))
    && forall i :: from <= i < (if r.Some? then r.value else |all|) ==> !LiveAt(all, q, i)
  }

  /** `r` is the last live entry up to index `to`. */
  ghost predicate LastLive(all: seq<Entry>, q: nat, to: int, r: Option<nat>) {
    && (r.Some? ==> r.value <= to && LiveAt(all, q, r.value))
    && forall i :: (if r.Some? then r.value else -1) < i <= to ==> !LiveAt(all, q, i)
  }

  lemma UsersAscend(all: seq<Entry>)
    requires Sorted(all)
    ensures forall i, j :: 0 <= i <= j < |all| ==> all[i].user <= all[j].user
  {
  }

  /** The live entries are exactly the keys that have a value at the snapshot ... */
  lemma LiveEntriesAreTheReads(all: seq<Entry>, q: nat, u: UserKey, value: Bytes)
    requires Sorted(all) && Unique(EntrySet(all))
    ensures Read(EntrySet(all), u, q) == Some(value)
       <==> exists i :: LiveAt(all, q, i) && all[i].user == u && all[i].op.value == value
  {
    if i :| LiveAt(all, q, i) && all[i].user == u && all[i].op.value == value {
      LiveIsNewest(all, q, i);
      ReadIs(EntrySet(all), u, q, all[i]);
    }
    NewestExists(EntrySet(all), u, q);
    if e :| Newest(EntrySet(all), u, q, e) && Read(EntrySet(all), u, q) == Some(value) {
      ReadIs(EntrySet(all), u, q, e);
      var i :| 0 <= i < |all| && all[i] == e;
      forall k | 0 <= k < i && all[k].user == u
        ensures all[k].sequence > q
      {
        assert all[k] in EntrySet(all) && Before(KeyOf(all[k]), KeyOf(all[i]));
      }
      assert LiveAt(all, q, i);
    }
  }

  lemma LiveIsNewest(all: seq<Entry>, q: nat, i: nat)
    requires Sorted(all) && LiveAt(all, q, i)
    ensures Newest(EntrySet(all), all[i].user, q, all[i])
  {
    forall x | x in EntrySet(all) && Visible(x, all[i].user, q)
      ensures x.sequence <= all[i].sequence
    {
      var k :| 0 <= k < |all| && all[k] == x;
      if k > i {
        assert Before(KeyOf(all[i]), KeyOf(all[k]));
      }
    }
  }

  /** ... once each, in increasing key order. */
  lemma LiveKeysAscend(all: seq<Entry>, q: nat, i: nat, j: nat)
    requires Sorted(all) && i < j && LiveAt(all, q, i) && LiveAt(all, q, j)
    ensures all[i].user < all[j].user
  {
    assert Before(KeyOf(all[i]), KeyOf(all[j]));
  }

  class DBIter {
    const iter: MergingIterator
    const sequence: nat
    var savedKey: Option<UserKey>
    var savedValue: Bytes
    var direction: Direction
    var valid: bool

    /** The index of the current entry in the merged sequence. */
    ghost var cur: Option<nat>

    ghost function All(): seq<Entry> { iter.all }

    /** The internal iterator's place, -1 when it has run off the front in reverse. */
    ghost function Behind(): int
      reads iter
    {
      if iter.at >= |iter.all| then -1 else iter.at
    }

    ghost predicate Valid()
      reads this, iter
    {
      && iter.Valid() && (valid <==> cur.Some?)
      && (valid ==> LiveAt(All(), sequence, cur.value))
      && (valid && direction == Forward ==> iter.at == cur.value)
      && (valid && direction == Reverse ==>
            && savedKey == Some(All()[cur.value].user) && savedValue == All()[cur.value].op.value
            && Behind() < cur.value && (Behind() >= 0 ==> All()[Behind()].user < savedKey.value)
            && forall k :: Behind() < k < cur.value ==> All()[k].sequence > sequence)
    }

    constructor (iter: MergingIterator, sequence: nat)
      requires iter.Valid()
      ensures Valid() && !valid && this.iter == iter && this.sequence == sequence
    {
      this.iter, this.sequence := iter, sequence;
      savedKey, savedValue, direction, valid, cur := None, [], Forward, false, None;
    }

    /** key() and value(). */
    function Current(): (kv: (UserKey, Bytes))
      requires Valid() && valid
      reads this, iter
      ensures kv == (All()[cur.value].user, All()[cur.value].op.value)
    {
      if direction == Forward then (iter.Entry().user, iter.Entry().op.value) else (savedKey.value, savedValue)
    }

    method Next()
      requires Valid() && valid
      modifies this, iter
      ensures Valid() && FirstLive(iter.all, sequence, old(cur).value + 1, cur)
      ensures valid ==> direction == Forward
    {
      ghost var c := cur.value;
      if direction == Reverse {
        direction := Forward;
        if !iter.IsValid() {
          iter.SeekToFirst();
        } else {
          iter.Next();
        }
      } else {
        savedKey := Some(iter.Entry().user);
      }
      ghost var from := iter.at;
      NextScanStarts(iter.all, sequence, c, from);
      FindNextUserEntry(true, savedKey);
      FirstAboveIsNext(iter.all, sequence, c, from, cur);
    }

    /** Scans forward for the first live entry above `lo`; the key to skip is in savedKey. */
    method FindNextUserEntry(skipFirst: bool, ghost lo: Option<UserKey>)
      requires iter.Valid() && iter.IsValid() && direction == Forward
      requires skipFirst == lo.Some? && (skipFirst ==> savedKey == lo)
      requires ScanStarts(iter.all, sequence, lo, iter.at)
      modifies this, iter
      ensures Valid() && (valid ==> direction == Forward)
      ensures FirstWanted(iter.all, sequence, lo, old(iter.at), cur)
    {
      ScanForwardFinds(iter.all, sequence, lo, iter.at);
      valid := ScanAhead(skipFirst);
      savedKey := None;
      cur := if valid then Some(iter.at) else None;
    }

    /** The loop of FindNextUserEntry. */
    method ScanAhead(skipFirst: bool) returns (found: bool)
      requires iter.Valid() && direction == Forward && (skipFirst ==> savedKey.Some?)
      modifies this`savedKey, iter
      ensures iter.Valid() && (found ==> iter.IsValid())
      ensures ScanForward(iter.all, sequence, old(iter.at), if skipFirst then old(savedKey) else None)
           == if found then Some(iter.at) else None
    {
      var skipping := skipFirst;
      ghost var result := ScanForward(iter.all, sequence, iter.at, if skipFirst then savedKey else None);
      while iter.IsValid()
        invariant iter.Valid() && direction == Forward
        invariant skipping ==> savedKey.Some?
        invariant result == ScanForward(iter.all, sequence, iter.at, if skipping then savedKey else None)
        decreases |iter.all| - iter.at
      {
        var e := iter.Entry();
        if e.sequence <= sequence {
          if e.op.Delete? {
            savedKey, skipping := Some(e.user), true;
          } else if skipping && e.user <= savedKey.value {
          } else {
            return true;
          }
        }
        iter.Next();
      }
      found := false;
    }

    method Seek(target: UserKey)
      requires Valid()
      modifies this, iter
      ensures Valid()
      ensures FirstLive(All(), sequence, LowerBound(All(), SeekKey(target, sequence)), cur)
      ensures forall i :: LiveAt(All(), sequence, i) ==> (All()[i].user >= target <==> i >= LowerBound(All(), SeekKey(target, sequence)))
    {
      direction, savedValue, savedKey := Forward, [], None;
      iter.Seek(SeekKey(target, sequence));
      SeekSplits(All(), sequence, target);
      if iter.IsValid() {
        ghost var from := iter.at;
        FindNextUserEntry(false, None);
        FirstWantedIsFirstLive(iter.all, sequence, from, cur);
      } else {
        valid, cur := false, None;
      }
    }

    method SeekToFirst()
      requires Valid()
      modifies this, iter
      ensures Valid() && FirstLive(All(), sequence, 0, cur)
    {
      direction, savedValue := Forward, [];
      iter.SeekToFirst();
      if iter.IsValid() {
        ghost var from := iter.at;
        FindNextUserEntry(false, None);
        FirstWantedIsFirstLive(iter.all, sequence, from, cur);
      } else {
        valid, cur := false, None;
      }
    }

    method SeekToLast()
      requires Valid()
      modifies this, iter
      ensures Valid() && LastLive(All(), sequence, |All()| - 1, cur)
    {
      direction, savedValue := Reverse, [];
      iter.SeekToLast();
      FindPrevUserEntry();
    }

    method Prev()
      requires Valid() && valid
      modifies this, iter
      ensures Valid() && LastLive(All(), sequence, old(cur).value - 1, cur)
    {
      ghost var c := cur.value;
      UsersAscend(All());
      if direction == Forward {
        savedKey := Some(iter.Entry().user);
        var more := BackOverKey(c);
        if !more {
          valid, cur := false, None;
          savedKey, savedValue := None, [];
          return;
        }
        direction := Reverse;
      }
      FindPrevUserEntry();
    }

    /** Moves back to before the entries of the current key, if anything is there. */
    method BackOverKey(ghost c: nat) returns (more: bool)
      requires iter.Valid() && iter.IsValid() && iter.at == c && savedKey == Some(All()[c].user)
      modifies iter
      ensures iter.Valid() && more == iter.IsValid()
      ensures more ==> iter.at < c && All()[iter.at].user < savedKey.value
      ensures forall k :: (if more then iter.at else -1) < k < c ==> All()[k].user == savedKey.value
    {
      UsersAscend(All());
      while true
        invariant iter.Valid() && iter.IsValid() && iter.at <= c
        invariant forall k :: iter.at <= k < c ==> All()[k].user == savedKey.value
        decreases iter.at
      {
        iter.Prev();
        if !iter.IsValid() {
          return false;
        }
        if iter.Entry().user < savedKey.value {
          return true;
        }
      }
    }

    /** Scans backward over whole keys for the last live entry at or before the iterator. */
    method FindPrevUserEntry()
      requires iter.Valid() && direction == Reverse
      modifies this, iter
      ensures Valid() && LastLive(iter.all, sequence, old(Behind()), cur)
    {
      ghost var from := Behind();
      var valueIsDeletion;
      ghost var c;
      valueIsDeletion, c := ScanBack();
      if valueIsDeletion {
        valid, cur := false, None;
        savedKey, savedValue, direction := None, [], Forward;
      } else {
        BackFound(iter.all, sequence, from, Behind(), Scan(savedKey, savedValue, c));
        valid, cur := true, Some(c);
      }
    }

    /** The loop of FindPrevUserEntry. */
    method ScanBack() returns (valueIsDeletion: bool, ghost c: nat)
      requires iter.Valid() && direction == Reverse
      modifies this`savedKey, this`savedValue, iter
      ensures iter.Valid() && (!valueIsDeletion ==> savedKey.Some?)
      ensures Scan(if valueIsDeletion then None else savedKey, savedValue, c) in Scans(iter.all, sequence, old(Behind()), Behind())
      ensures Behind() >= 0 ==> !valueIsDeletion && All()[Behind()].user < savedKey.value
    {
      ghost var from := Behind();
      valueIsDeletion := true;
      c := 0;
      while iter.IsValid()
        invariant iter.Valid() && direction == Reverse
        invariant !valueIsDeletion ==> savedKey.Some?
        invariant Scan(if valueIsDeletion then None else savedKey, savedValue, c) in Scans(iter.all, sequence, from, Behind())
        decreases Behind() + 1
      {
        var e := iter.Entry();
        BackStep(iter.all, sequence, from, Behind(), Scan(if valueIsDeletion then None else savedKey, savedValue, c));
        if e.sequence <= sequence {
          if !valueIsDeletion && e.user < savedKey.value {
            return;
          }
          valueIsDeletion := e.op.Delete?;
          if valueIsDeletion {
            savedKey, savedValue := None, [];
          } else {
            savedKey, savedValue := Some(e.user), e.op.value;
            c := iter.at;
          }
        }
        iter.Prev();
      }
    }
  }

  /** An entry the forward scan is looking for. */
  ghost predicate Wanted(all: seq<Entry>, q: nat, lo: Option<UserKey>, i: int) {
    LiveAt(all, q, i) && (lo.Some? ==> all[i].user > lo.value)
  }

  ghost predicate FirstWanted(all: seq<Entry>, q: nat, lo: Option<UserKey>, from: nat, r: Option<nat>) {
    && (r.Some? ==> r.value >= from && Wanted(all, q, lo, r.value))
    && forall i :: from <= i < (if r.Some? then r.value else |all|) ==> !Wanted(all, q, lo, i)
  }

  lemma FirstWantedIsFirstLive(all: seq<Entry>, q: nat, from: nat, r: Option<nat>)
    requires FirstWanted(all, q, None, from, r)
    ensures FirstLive(all, q, from, r)
  {
    forall i | from <= i < (if r.Some? then r.value else |all|)
      ensures !LiveAt(all, q, i)
    {
      assert !Wanted(all, q, None, i);
    }
  }

  /** After the current entry `c`, the live entries are those with a larger key. */
  lemma FirstAboveIsNext(all: seq<Entry>, q: nat, c: nat, from: nat, r: Option<nat>)
    requires Sorted(all) && LiveAt(all, q, c) && from <= c + 1
    requires FirstWanted(all, q, Some(all[c].user), from, r)
    ensures FirstLive(all, q, c + 1, r)
  {
    forall i | c + 1 <= i < (if r.Some? then r.value else |all|)
      ensures !LiveAt(all, q, i)
    {
      if LiveAt(all, q, i) {
        LiveKeysAscend(all, q, c, i);
        assert Wanted(all, q, Some(all[c].user), i);
      }
    }
    if r.Some? && r.value <= c {
      UsersAscend(all);
    }
  }

  /** Where Next starts its scan: anywhere behind the current entry with nothing visible between. */
  lemma NextScanStarts(all: seq<Entry>, q: nat, c: nat, at: nat)
    requires Sorted(all) && LiveAt(all, q, c) && at <= c
    requires forall k :: at <= k < c ==> all[k].sequence > q
    requires at < c ==> (at > 0 ==> all[at - 1].user < all[c].user)
    ensures ScanStarts(all, q, Some(all[c].user), at)
  {
    UsersAscend(all);
  }

  /** Entries before `at` that the snapshot sees only concern keys that will be skipped. */
  ghost predicate Covered(all: seq<Entry>, q: nat, at: nat, skip: Option<UserKey>) {
    forall k, i :: 0 <= k < at <= i < |all| && all[k].sequence <= q && all[k].user == all[i].user
      ==> skip.Some? && all[i].user <= skip.value
  }

  ghost predicate ScanStarts(all: seq<Entry>, q: nat, lo: Option<UserKey>, at: nat) {
    && (lo.Some? ==> forall i :: at <= i < |all| && all[i].sequence <= q ==> all[i].user >= lo.value)
    && Covered(all, q, at, lo)
  }

  ghost predicate Scanned(all: seq<Entry>, q: nat, lo: Option<UserKey>, start: nat, at: nat, skip: Option<UserKey>) {
    && ScanStarts(all, q, lo, start) && start <= at <= |all| && Sorted(all)
    && (lo.Some? ==> skip.Some? && skip.value >= lo.value)
    && (forall i :: start <= i < at ==> !Wanted(all, q, lo, i))
    && (forall i :: at <= i && Wanted(all, q, lo, i) && skip.Some? ==> all[i].user > skip.value)
    && Covered(all, q, at, skip)
  }

  ghost function SkipAfter(e: Entry, q: nat, skip: Option<UserKey>): Option<UserKey> {
    if e.sequence <= q && e.op.Delete? then Some(e.user) else skip
  }

  /** One entry of the forward scan: a deletion marker moves the key to skip, a skipped or
      invisible entry changes nothing, and any other entry is the one wanted. */
  lemma ScanStep(all: seq<Entry>, q: nat, lo: Option<UserKey>, start: nat, at: nat, skip: Option<UserKey>)
    requires Scanned(all, q, lo, start, at, skip) && at < |all|
    ensures var e := all[at];
            if e.sequence <= q && e.op.Put? && !(skip.Some? && e.user <= skip.value) then Wanted(all, q, lo, at)
            else Scanned(all, q, lo, start, at + 1, SkipAfter(e, q, skip))
  {
    UsersAscend(all);
    var e := all[at];
    if e.sequence <= q && e.op.Delete? {
      forall i | at + 1 <= i && Wanted(all, q, lo, i)
        ensures all[i].user > e.user
      {
      }
    }
  }

  /** The live keys from `target` on are those the internal Seek does not pass. */
  lemma SeekSplits(all: seq<Entry>, q: nat, target: UserKey)
    requires Sorted(all)
    ensures ScanStarts(all, q, None, LowerBound(all, SeekKey(target, q)))
    ensures forall i :: LiveAt(all, q, i) ==> (all[i].user >= target <==> i >= LowerBound(all, SeekKey(target, q)))
  {
  }

  /** The forward scan over the merged sequence. */
  ghost function ScanForward(all: seq<Entry>, q: nat, at: nat, skip: Option<UserKey>): Option<nat>
    decreases |all| - at
  {
    if at >= |all| then None
    else if all[at].sequence <= q && all[at].op.Put? && !(skip.Some? && all[at].user <= skip.value) then Some(at)
    else ScanForward(all, q, at + 1, SkipAfter(all[at], q, skip))
  }

  lemma ScanForwardFinds(all: seq<Entry>, q: nat, lo: Option<UserKey>, start: nat)
    requires Sorted(all) && start <= |all| && ScanStarts(all, q, lo, start)
    ensures FirstWanted(all, q, lo, start, ScanForward(all, q, start, lo))
  {
    ScanFinds(all, q, lo, start, start, lo);
  }

  lemma {:induction false} ScanFinds(all: seq<Entry>, q: nat, lo: Option<UserKey>, start: nat, at: nat, skip: Option<UserKey>)
    requires Scanned(all, q, lo, start, at, skip)
    ensures FirstWanted(all, q, lo, start, ScanForward(all, q, at, skip))
    decreases |all| - at
  {
    if at < |all| {
      ScanStep(all, q, lo, start, at, skip);
      if all[at].sequence <= q && all[at].op.Put? && !(skip.Some? && all[at].user <= skip.value) {
        ScanFound(all, q, lo, start, at, skip);
      } else {
        ScanFinds(all, q, lo, start, at + 1, SkipAfter(all[at], q, skip));
      }
    }
  }

  lemma ScanFound(all: seq<Entry>, q: nat, lo: Option<UserKey>, start: nat, at: nat, skip: Option<UserKey>)
    requires Scanned(all, q, lo, start, at, skip)
    requires at < |all| ==> Wanted(all, q, lo, at)
    ensures FirstWanted(all, q, lo, start, if at < |all| then Some(at) else None)
  {
  }

  /** The backward scan has reached `at`; entry `c` is remembered when `saved` is not None. */
  ghost predicate ScannedBack(all: seq<Entry>, q: nat, from: int, at: int, saved: Option<UserKey>, value: Bytes, c: nat) {
    && Sorted(all) && -1 <= at <= from < |all|
    && (saved.None? ==> forall i :: at < i <= from ==> !LiveAt(all, q, i))
    && (saved.Some? ==>
          && at < c <= from && all[c].op.Put? && all[c].sequence <= q
          && saved.value == all[c].user && value == all[c].op.value
          && (forall k :: at < k < c ==> all[k].sequence > q)
          && (forall i :: c < i <= from ==> !LiveAt(all, q, i)))
  }

  /** What a backward scan remembers: key, value and place of the last candidate. */
  datatype Scan = Scan(saved: Option<UserKey>, value: Bytes, c: nat)

  ghost function Scans(all: seq<Entry>, q: nat, from: int, at: int): iset<Scan> {
    iset s: Scan | ScannedBack(all, q, from, at, s.saved, s.value, s.c)
  }

  /** One entry of the backward scan: an older version already remembered is replaced by a newer
      one or erased by a newer deletion marker. */
  lemma BackStep(all: seq<Entry>, q: nat, from: int, at: int, s: Scan)
    requires s in Scans(all, q, from, at) && at >= 0
    ensures at < |all|
    ensures var e := all[at];
            if e.sequence > q then s in Scans(all, q, from, at - 1)
            else if s.saved.Some? && e.user < s.saved.value then true
            else if e.op.Delete? then Scan(None, [], s.c) in Scans(all, q, from, at - 1)
            else Scan(Some(e.user), e.op.value, at) in Scans(all, q, from, at - 1)
  {
    UsersAscend(all);
  }

  lemma BackFound(all: seq<Entry>, q: nat, from: int, at: int, s: Scan)
    requires s in Scans(all, q, from, at) && s.saved.Some?
    requires 0 <= at < |all| ==> all[at].user < s.saved.value
    ensures LastLive(all, q, from, Some(s.c))
    ensures ScannedBack(all, q, from, at, s.saved, s.value, s.c)
  {
    UsersAscend(all);
  }

  ghost predicate PairOf(all: seq<Entry>, q: nat, i: int, kv: (UserKey, Bytes)) {
    LiveAt(all, q, i) && kv == (all[i].user, all[i].op.value)
  }

  ghost predicate HasPair(all: seq<Entry>, q: nat, n: nat, kv: (UserKey, Bytes)) {
    exists i :: 0 <= i < n && PairOf(all, q, i, kv)
  }

  /** The pairs collected so far are those of the live entries below index `n`. */
  ghost predicate Collected(all: seq<Entry>, q: nat, n: nat, kvs: seq<(UserKey, Bytes)>) {
    && (forall j :: 0 <= j < |kvs| ==> HasPair(all, q, n, kvs[j]))
    && (forall i :: 0 <= i < n && LiveAt(all, q, i) ==> (all[i].user, all[i].op.value) in kvs)
    && (forall j, k :: 0 <= j < k < |kvs| ==> kvs[j].0 < kvs[k].0)
  }

  lemma CollectOne(all: seq<Entry>, q: nat, c: nat, next: Option<nat>, kvs: seq<(UserKey, Bytes)>)
    requires Sorted(all) && Collected(all, q, c, kvs) && LiveAt(all, q, c) && FirstLive(all, q, c + 1, next)
    ensures Collected(all, q, if next.Some? then next.value else |all|, kvs + [(all[c].user, all[c].op.value)])
  {
    var kvs' := kvs + [(all[c].user, all[c].op.value)];
    var n := if next.Some? then next.value else |all|;
    assert PairOf(all, q, c, kvs'[|kvs|]);
    forall j | 0 <= j < |kvs|
      ensures kvs[j].0 < all[c].user && HasPair(all, q, n, kvs[j])
    {
      assert HasPair(all, q, c, kvs[j]);
      var i :| 0 <= i < c && PairOf(all, q, i, kvs[j]);
      LiveKeysAscend(all, q, i, c);
    }
  }

  /** A whole forward pass yields every key that has a value at the snapshot, with that value,
      once, in increasing key order, and nothing else. */
  method Collect(it: DBIter) returns (kvs: seq<(UserKey, Bytes)>)
    requires it.Valid() && Unique(EntrySet(it.iter.all))
    modifies it, it.iter
    ensures forall j, k :: 0 <= j < k < |kvs| ==> kvs[j].0 < kvs[k].0
    ensures forall u, v :: (u, v) in kvs <==> Read(EntrySet(it.iter.all), u, it.sequence) == Some(v)
  {
    ghost var all, q := it.iter.all, it.sequence;
    it.SeekToFirst();
    kvs := [];
    while it.valid
      invariant it.Valid() && Collected(all, q, if it.cur.Some? then it.cur.value else |all|, kvs)
      decreases |all| - (if it.cur.Some? then it.cur.value else |all|)
    {
      ghost var c := it.cur.value;
      var kv := it.Current();
      it.Next();
      CollectOne(all, q, c, it.cur, kvs);
      kvs := kvs + [kv];
    }
    forall u, v
      ensures (u, v) in kvs <==> Read(EntrySet(all), u, q) == Some(v)
    {
      LiveEntriesAreTheReads(all, q, u, v);
      if (u, v) in kvs {
        var j :| 0 <= j < |kvs| && kvs[j] == (u, v);
        assert HasPair(all, q, |all|, kvs[j]);
        var i :| 0 <= i < |all| && PairOf(all, q, i, kvs[j]);
      }
    }
  }

  /** Next and then Prev: back at the same key and value, unless Next ran off the end. */
  method NextThenPrev(it: DBIter) returns (back: bool)
    requires it.Valid() && it.valid
    modifies it, it.iter
    ensures it.Valid() && back == it.valid
    ensures back ==> it.cur == old(it.cur) && it.Current() == old(it.Current())
    ensures back <==> exists i :: i > old(it.cur.value) && LiveAt(it.iter.all, it.sequence, i)
  {
    it.Next();
    back := it.valid;
    if back {
      it.Prev();
    }
  }

  /** And the other way round. */
  method PrevThenNext(it: DBIter) returns (back: bool)
    requires it.Valid() && it.valid
    modifies it, it.iter
    ensures it.Valid() && back == it.valid
    ensures back ==> it.cur == old(it.cur) && it.Current() == old(it.Current())
    ensures back <==> exists i :: i < old(it.cur.value) && LiveAt(it.iter.all, it.sequence, i)
  {
    it.Prev();
    back := it.valid;
    if back {
      it.Next();
    }
  }
}
