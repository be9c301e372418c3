/** VersionSet::Builder in db/version_set.cc: many edits applied at once.

    A version is, level by level, a list of files in the order of BySmallestKey. */
module VersionBuilder {
  import opened Keys

  datatype FileMeta = FileMeta(number: nat, size: nat, smallest: IKey, largest: IKey)

  /** The part of a VersionEdit that names files; deletions come before additions. */
  datatype Edit = Edit(deleted: set<(nat, nat)>, added: seq<(nat, FileMeta)>)

  /** BySmallestKey. */
  predicate Smaller(a: FileMeta, b: FileMeta) {
    Before(a.smallest, b.smallest) || (a.smallest == b.smallest && a.number < b.number)
  }

  ghost predicate Increasing(s: seq<FileMeta>) {
    forall i, j :: 0 <= i < j < |s| ==> Smaller(s[i], s[j])
  }

  function FilesOf(s: seq<FileMeta>): set<FileMeta> {
    set f | f in s
  }

  // One edit, applied to one level

  function DeletedAt(e: Edit, level: nat): set<nat> {
    set d | d in e.deleted && d.0 == level :: d.1
  }

  function AddedAt(added: seq<(nat, FileMeta)>, level: nat): set<FileMeta> {
    set a | a in added && a.0 == level :: a.1
  }

  function Numbers(fs: set<FileMeta>): set<nat> {
    set f | f in fs :: f.number
  }

  /** What an edit means: files deleted go, files added come. */
  ghost function After(fs: set<FileMeta>, e: Edit, level: nat): set<FileMeta> {
    (set f | f in fs && f.number !in DeletedAt(e, level)) + AddedAt(e.added, level)
  }

  ghost function AfterAll(fs: set<FileMeta>, edits: seq<Edit>, level: nat): set<FileMeta> {
    if edits == [] then fs else After(AfterAll(fs, edits[..|edits| - 1], level), edits[|edits| - 1], level)
  }

  // The builder

  /** The files a set that compares by BySmallestKey keeps: the first of those that compare equal. */
  function Insert(s: seq<FileMeta>, f: FileMeta): (r: seq<FileMeta>)
  {
    if s == [] || Smaller(f, s[0]) then [f] + s
    else if Smaller(s[0], f) then [s[0]] + Insert(s[1..], f)
    else s
  }

  lemma {:induction false} InsertKeepsOrder(s: seq<FileMeta>, f: FileMeta)
    requires Increasing(s)
    ensures Increasing(Insert(s, f))
    ensures forall x :: x in Insert(s, f) ==> x in s || x == f
    ensures forall x :: x in s ==> x in Insert(s, f)
    ensures (forall x :: x in s ==> x.number != f.number) ==> f in Insert(s, f)
  {
    if s != [] && !Smaller(f, s[0]) && Smaller(s[0], f) {
      InsertKeepsOrder(s[1..], f);
      var r := Insert(s[1..], f);
      forall i, j | 0 <= i < j < |[s[0]] + r| ensures Smaller(([s[0]] + r)[i], ([s[0]] + r)[j]) {
        if i == 0 {
          assert r[j - 1] in r;
          assert r[j - 1] in s[1..] || r[j - 1] == f;
        }
      }
    }
  }

  datatype Level = Level(deleted: set<nat>, added: seq<FileMeta>)

  function DeleteFrom(l: Level, number: nat): Level {
    l.(deleted := l.deleted + {number})
  }

  function AddTo(l: Level, f: FileMeta): Level {
    Level(l.deleted - {f.number}, Insert(l.added, f))
  }

  function AddAll(l: Level, added: seq<(nat, FileMeta)>, level: nat): Level {
    if added == [] then l
    else
      var before := AddAll(l, added[..|added| - 1], level);
      var (to, f) := added[|added| - 1];
      if to == level then AddTo(before, f) else before
  }

  function ApplyTo(l: Level, e: Edit, level: nat): Level {
    AddAll(l.(deleted := l.deleted + DeletedAt(e, level)), e.added, level)
  }

  function ApplyAll(l: Level, edits: seq<Edit>, level: nat): Level {
    if edits == [] then l else ApplyTo(ApplyAll(l, edits[..|edits| - 1], level), edits[|edits| - 1], level)
  }

  function Keep(s: seq<FileMeta>, deleted: set<nat>): (r: seq<FileMeta>)
    ensures forall x :: x in r <==> x in s && x.number !in deleted
  {
    if s == [] then []
    else if s[0].number in deleted then Keep(s[1..], deleted)
    else [s[0]] + Keep(s[1..], deleted)
  }

  /** SaveTo's merge: of two that compare equal the base file comes first. */
  function Merge(base: seq<FileMeta>, added: seq<FileMeta>): (r: seq<FileMeta>)
    ensures forall x :: x in r <==> x in base || x in added
  {
    if base == [] then added
    else if added == [] then base
    else if Smaller(added[0], base[0]) then [added[0]] + Merge(base, added[1..])
    else [base[0]] + Merge(base[1..], added)
  }

  /** The files a level ends up with. */
  ghost function Saved(base: seq<FileMeta>, l: Level): set<FileMeta> {
    set f | f in base + l.added && f.number !in l.deleted
  }

  // Batched edits are the edits one by one

  /** Every file added is new to its level: neither in the base nor added before, even if deleted since. */
  ghost predicate NeverReadded(base: seq<FileMeta>, edits: seq<Edit>, level: nat) {
    && (forall i, f, g :: 0 <= i < |edits| && f in AddedAt(edits[i].added, level) && g in base ==> f.number != g.number)
    && (forall i, j, f, g :: 0 <= i < j < |edits| && f in AddedAt(edits[i].added, level) && g in AddedAt(edits[j].added, level)
          ==> f.number != g.number)
    && (forall i, f, g :: 0 <= i < |edits| && f in AddedAt(edits[i].added, level) && g in AddedAt(edits[i].added, level) && f.number == g.number
          ==> f == g)
  }

  // Exactly when

  /** `f` is in the base and no edit deletes its number, or an edit adds it and no later one does. */
  ghost predicate Live(base: seq<FileMeta>, edits: seq<Edit>, level: nat, f: FileMeta) {
    || (f in base && forall j :: 0 <= j < |edits| ==> f.number !in DeletedAt(edits[j], level))
    || exists i :: 0 <= i < |edits| && AddedForGood(edits, level, i, f)
  }

  ghost predicate AddedForGood(edits: seq<Edit>, level: nat, i: nat, f: FileMeta)
    requires i < |edits|
  {
    f in AddedAt(edits[i].added, level) && forall j :: i < j < |edits| ==> f.number !in DeletedAt(edits[j], level)
  }

  /** The files added to the level, in order. */
  function Adds(added: seq<(nat, FileMeta)>, level: nat): (r: seq<FileMeta>)
    ensures forall f :: f in r <==> f in AddedAt(added, level)
  {
    if added == [] then []
    else
      var n := |added| - 1;
      var front := Adds(added[..n], level);
      assert added == added[..n] + [added[n]];
      assert AddedAt(added, level) == AddedAt(added[..n], level) + (if added[n].0 == level then {added[n].1} else {});
      if added[n].0 == level then front + [added[n].1] else front
  }

  function AllAdds(edits: seq<Edit>, level: nat): seq<FileMeta> {
    if edits == [] then [] else AllAdds(edits[..|edits| - 1], level) + Adds(edits[|edits| - 1].added, level)
  }

  /** BySmallestKey holds the two for equal. */
  predicate SamePlace(a: FileMeta, b: FileMeta) {
    a.smallest == b.smallest && a.number == b.number
  }

  /** `f` is in the list, before any other file that compares equal to it. */
  ghost predicate FirstOf(fs: seq<FileMeta>, f: FileMeta) {
    exists k :: 0 <= k < |fs| && FirstAt(fs, k, f)
  }

  ghost predicate FirstAt(fs: seq<FileMeta>, k: nat, f: FileMeta)
    requires k < |fs|
  {
    fs[k] == f && forall m :: 0 <= m < k ==> !SamePlace(fs[m], f)
  }

  /** A file the builder knows of: a base file, or the first added of those that compare equal. */
  ghost predicate Known(base: seq<FileMeta>, edits: seq<Edit>, level: nat, f: FileMeta) {
    f in base || FirstOf(AllAdds(edits, level), f)
  }

  /** For any edits at all: a builder leaves what applying them one by one leaves, exactly when it
      knows every live file, and every file it knows that shares its number with a live one is
      live itself.  So a number may be deleted and used again if no other file had it. */
  lemma BatchedIsStepwiseIff(base: seq<FileMeta>, edits: seq<Edit>, level: nat)
    ensures Saved(base, ApplyAll(Level({}, []), edits, level)) == AfterAll(FilesOf(base), edits, level)
       <==> && (forall f :: Live(base, edits, level, f) ==> Known(base, edits, level, f))
            && (forall f, g :: Known(base, edits, level, f) && Live(base, edits, level, g) && f.number == g.number
                  ==> Live(base, edits, level, f))
  {
    var l := ApplyAll(Level({}, []), edits, level);
    forall f
      ensures f in AfterAll(FilesOf(base), edits, level) <==> Live(base, edits, level, f)
      ensures f in base + l.added <==> Known(base, edits, level, f)
      ensures Live(base, edits, level, f) ==> f.number !in l.deleted
    {
      AfterAllIs(base, edits, level, f);
      AddedIs(edits, level, f);
      LiveIsNotDeleted(base, edits, level, f);
    }
    forall f | Known(base, edits, level, f) && f.number !in l.deleted
      ensures exists g :: Live(base, edits, level, g) && f.number == g.number
    {
      var g := NumberIsLive(base, edits, level, f);
    }
  }

  lemma {:induction false} AfterAllIs(base: seq<FileMeta>, edits: seq<Edit>, level: nat, f: FileMeta)
    ensures f in AfterAll(FilesOf(base), edits, level) <==> Live(base, edits, level, f)
  {
    if edits != [] {
      var n := |edits| - 1;
      var front := edits[..n];
      AfterAllIs(base, front, level, f);
      if f in AddedAt(edits[n].added, level) {
        assert AddedForGood(edits, level, n, f);
      }
      if i :| 0 <= i < n && AddedForGood(front, level, i, f) && f.number !in DeletedAt(edits[n], level) {
        assert AddedForGood(edits, level, i, f);
      }
      if i :| 0 <= i < n && AddedForGood(edits, level, i, f) {
        assert forall j :: 0 <= j < n ==> front[j] == edits[j];
        assert AddedForGood(front, level, i, f);
      }
    }
  }

  /** Number `n` is deleted by edit `k`, and neither it nor a later edit adds a file with it. */
  ghost predicate DeletedForGood(edits: seq<Edit>, level: nat, k: nat, n: nat)
    requires k < |edits|
  {
    n in DeletedAt(edits[k], level) && forall j :: k <= j < |edits| ==> n !in Numbers(AddedAt(edits[j].added, level))
  }

  lemma {:induction false} AddAllDeletes(l: Level, added: seq<(nat, FileMeta)>, level: nat)
    ensures AddAll(l, added, level).deleted == l.deleted - Numbers(AddedAt(added, level))
  {
    if added != [] {
      var n := |added| - 1;
      assert added == added[..n] + [added[n]];
      AddAllDeletes(l, added[..n], level);
      assert AddedAt(added, level) == AddedAt(added[..n], level) + (if added[n].0 == level then {added[n].1} else {});
    }
  }

  lemma {:induction false} DeletedIs(edits: seq<Edit>, level: nat, n: nat)
    ensures n in ApplyAll(Level({}, []), edits, level).deleted
       <==> exists k :: 0 <= k < |edits| && DeletedForGood(edits, level, k, n)
  {
    if edits != [] {
      var last := |edits| - 1;
      var front := edits[..last];
      var e := edits[last];
      var before := ApplyAll(Level({}, []), front, level);
      DeletedIs(front, level, n);
      AddAllDeletes(before.(deleted := before.deleted + DeletedAt(e, level)), e.added, level);
      assert forall j :: 0 <= j < last ==> front[j] == edits[j];
      if n !in Numbers(AddedAt(e.added, level)) {
        if n in DeletedAt(e, level) {
          assert DeletedForGood(edits, level, last, n);
        }
        if k :| 0 <= k < last && DeletedForGood(front, level, k, n) {
          assert DeletedForGood(edits, level, k, n);
        }
        if k :| 0 <= k < last && DeletedForGood(edits, level, k, n) {
          assert DeletedForGood(front, level, k, n);
        }
      }
    }
  }

  lemma LiveIsNotDeleted(base: seq<FileMeta>, edits: seq<Edit>, level: nat, f: FileMeta)
    ensures Live(base, edits, level, f) ==> f.number !in ApplyAll(Level({}, []), edits, level).deleted
  {
    DeletedIs(edits, level, f.number);
    if i :| 0 <= i < |edits| && AddedForGood(edits, level, i, f) {
      assert f.number in Numbers(AddedAt(edits[i].added, level));
    }
  }

  /** A number that ends up not deleted was never deleted, or has a file added since. */
  lemma NumberIsLive(base: seq<FileMeta>, edits: seq<Edit>, level: nat, f: FileMeta) returns (g: FileMeta)
    requires Known(base, edits, level, f) && f.number !in ApplyAll(Level({}, []), edits, level).deleted
    ensures Live(base, edits, level, g) && g.number == f.number
  {
    DeletedIs(edits, level, f.number);
    if k :| 0 <= k < |edits| && f.number in DeletedAt(edits[k], level) {
      g := AddedSince(edits, level, k, f.number);
    } else {
      g := f;
      if f !in base {
        var m :| 0 <= m < |AllAdds(edits, level)| && FirstAt(AllAdds(edits, level), m, f);
        var i := AddedBy(edits, level, f);
        assert AddedForGood(edits, level, i, f);
      }
    }
  }

  lemma {:induction false} AddedBy(edits: seq<Edit>, level: nat, f: FileMeta) returns (i: nat)
    requires f in AllAdds(edits, level)
    ensures i < |edits| && f in AddedAt(edits[i].added, level)
  {
    var n := |edits| - 1;
    if f in Adds(edits[n].added, level) {
      i := n;
    } else {
      i := AddedBy(edits[..n], level, f);
    }
  }

  /** From a deletion on, the last edit that deletes the number or adds a file with it adds one. */
  lemma {:induction false} AddedSince(edits: seq<Edit>, level: nat, k: nat, n: nat) returns (g: FileMeta)
    requires k < |edits| && n in DeletedAt(edits[k], level)
    requires forall j :: 0 <= j < |edits| ==> !DeletedForGood(edits, level, j, n)
    ensures g.number == n && exists i :: 0 <= i < |edits| && AddedForGood(edits, level, i, g)
    decreases |edits| - k
  {
    assert !DeletedForGood(edits, level, k, n);
    var j :| k <= j < |edits| && n in Numbers(AddedAt(edits[j].added, level));
    g :| g in AddedAt(edits[j].added, level) && g.number == n;
    if later :| j < later < |edits| && n in DeletedAt(edits[later], level) {
      g := AddedSince(edits, level, later, n);
    } else {
      assert AddedForGood(edits, level, j, g);
    }
  }

  // Which added files the builder keeps

  function InsertAll(s: seq<FileMeta>, fs: seq<FileMeta>): seq<FileMeta> {
    if fs == [] then s else Insert(InsertAll(s, fs[..|fs| - 1]), fs[|fs| - 1])
  }

  lemma {:induction false} InsertBoth(s: seq<FileMeta>, a: seq<FileMeta>, b: seq<FileMeta>)
    ensures InsertAll(s, a + b) == InsertAll(InsertAll(s, a), b)
  {
    if b == [] {
      assert a + b == a;
    } else {
      InsertBoth(s, a, b[..|b| - 1]);
      assert (a + b)[..|a + b| - 1] == a + b[..|b| - 1];
    }
  }

  lemma {:induction false} AddAllInserts(l: Level, added: seq<(nat, FileMeta)>, level: nat)
    ensures AddAll(l, added, level).added == InsertAll(l.added, Adds(added, level))
  {
    if added != [] {
      var n := |added| - 1;
      AddAllInserts(l, added[..n], level);
      if added[n].0 == level {
        var front := Adds(added[..n], level);
        assert (front + [added[n].1])[..|front|] == front;
      }
    }
  }

  lemma {:induction false} ApplyAllInserts(edits: seq<Edit>, level: nat)
    ensures ApplyAll(Level({}, []), edits, level).added == InsertAll([], AllAdds(edits, level))
  {
    if edits != [] {
      var n := |edits| - 1;
      var before := ApplyAll(Level({}, []), edits[..n], level);
      ApplyAllInserts(edits[..n], level);
      AddAllInserts(before.(deleted := before.deleted + DeletedAt(edits[n], level)), edits[n].added, level);
      InsertBoth([], AllAdds(edits[..n], level), Adds(edits[n].added, level));
    }
  }

  /** What an insertion leaves, exactly. */
  lemma {:induction false} InsertIff(s: seq<FileMeta>, f: FileMeta, x: FileMeta)
    requires Increasing(s)
    ensures x in Insert(s, f) <==> x in s || (x == f && forall y :: y in s ==> !SamePlace(y, f))
  {
    if s != [] {
      if Smaller(f, s[0]) {
        forall y | y in s
          ensures !SamePlace(y, f)
        {
          SmallerOrder(f, s[0], y);
        }
      } else if Smaller(s[0], f) {
        InsertIff(s[1..], f, x);
        assert s == [s[0]] + s[1..];
      } else {
        assert SamePlace(s[0], f);
      }
    }
  }

  lemma {:induction false} InsertedInOrder(fs: seq<FileMeta>)
    ensures Increasing(InsertAll([], fs))
  {
    if fs != [] {
      InsertedInOrder(fs[..|fs| - 1]);
      InsertKeepsOrder(InsertAll([], fs[..|fs| - 1]), fs[|fs| - 1]);
    }
  }

  lemma {:induction false} AllInserted(fs: seq<FileMeta>, x: FileMeta)
    ensures x in InsertAll([], fs) <==> FirstOf(fs, x)
  {
    if fs != [] {
      var n := |fs| - 1;
      var front, f := fs[..n], fs[n];
      var s := InsertAll([], front);
      AllInserted(front, x);
      InsertedInOrder(front);
      InsertIff(s, f, x);
      assert fs == front + [f];
      FirstOfMore(front, f, x);
      if m :| 0 <= m < n && SamePlace(front[m], f) {
        var y := FirstInPlace(front, m);
        AllInserted(front, y);
      } else {
        forall y | y in s
          ensures !SamePlace(y, f)
        {
          AllInserted(front, y);
        }
      }
    }
  }

  lemma FirstOfMore(front: seq<FileMeta>, f: FileMeta, x: FileMeta)
    ensures FirstOf(front + [f], x)
       <==> FirstOf(front, x) || (x == f && forall m :: 0 <= m < |front| ==> !SamePlace(front[m], f))
  {
    var n, fs := |front|, front + [f];
    assert forall m :: 0 <= m < n ==> front[m] == fs[m];
    if k :| 0 <= k < n && FirstAt(front, k, x) {
      assert FirstAt(fs, k, x);
    }
    if k :| 0 <= k < n && FirstAt(fs, k, x) {
      assert FirstAt(front, k, x);
    }
    assert FirstAt(fs, n, x) <==> x == f && forall m :: 0 <= m < n ==> !SamePlace(front[m], f);
  }

  lemma {:induction false} FirstInPlace(fs: seq<FileMeta>, m: nat) returns (y: FileMeta)
    requires m < |fs|
    ensures SamePlace(y, fs[m]) && FirstOf(fs, y)
  {
    if k :| 0 <= k < m && SamePlace(fs[k], fs[m]) {
      y := FirstInPlace(fs, k);
    } else {
      y := fs[m];
      assert FirstAt(fs, m, y);
    }
  }

  lemma AddedIs(edits: seq<Edit>, level: nat, f: FileMeta)
    ensures f in ApplyAll(Level({}, []), edits, level).added <==> FirstOf(AllAdds(edits, level), f)
  {
    ApplyAllInserts(edits, level);
    AllInserted(AllAdds(edits, level), f);
  }

  // A condition that is easy to keep

  /** Applying edits to one builder leaves what applying them one by one leaves. */
  lemma BatchedIsStepwise(base: seq<FileMeta>, edits: seq<Edit>, level: nat)
    requires NeverReadded(base, edits, level)
    ensures var l := ApplyAll(Level({}, []), edits, level);
            && Increasing(l.added)
            && (forall x :: x in l.added ==> exists i :: 0 <= i < |edits| && x in AddedAt(edits[i].added, level))
            && Saved(base, l) == AfterAll(FilesOf(base), edits, level)
  {
    AddedFiles(edits, level);
    AllKnown(base, edits, level);
    BatchedIsStepwiseIff(base, edits, level);
  }

  lemma AddedFiles(edits: seq<Edit>, level: nat)
    ensures var l := ApplyAll(Level({}, []), edits, level);
            && Increasing(l.added)
            && (forall x :: x in l.added ==> exists i :: 0 <= i < |edits| && x in AddedAt(edits[i].added, level))
  {
    var l := ApplyAll(Level({}, []), edits, level);
    ApplyAllInserts(edits, level);
    InsertedInOrder(AllAdds(edits, level));
    forall x | x in l.added
      ensures exists i :: 0 <= i < |edits| && x in AddedAt(edits[i].added, level)
    {
      AddedIs(edits, level, x);
      var i := AddedBy(edits, level, x);
    }
  }

  lemma AllKnown(base: seq<FileMeta>, edits: seq<Edit>, level: nat)
    requires NeverReadded(base, edits, level)
    ensures forall f :: Live(base, edits, level, f) ==> Known(base, edits, level, f)
    ensures forall f, g :: Known(base, edits, level, f) && Live(base, edits, level, g) && f.number == g.number ==> Live(base, edits, level, f)
  {
    forall f | Live(base, edits, level, f)
      ensures Known(base, edits, level, f)
    {
      NewIsKnown(base, edits, level, f);
    }
    forall f, g | Known(base, edits, level, f) && Live(base, edits, level, g) && f.number == g.number
      ensures Live(base, edits, level, f)
    {
      OneOfANumber(base, edits, level, f, g);
    }
  }

  lemma {:induction false} AddedIsListed(edits: seq<Edit>, level: nat, i: nat, f: FileMeta)
    requires i < |edits| && f in AddedAt(edits[i].added, level)
    ensures f in AllAdds(edits, level)
  {
    if i < |edits| - 1 {
      AddedIsListed(edits[..|edits| - 1], level, i, f);
    }
  }

  lemma NewIsKnown(base: seq<FileMeta>, edits: seq<Edit>, level: nat, f: FileMeta)
    requires NeverReadded(base, edits, level) && Live(base, edits, level, f)
    ensures Known(base, edits, level, f)
  {
    if f !in base {
      var i :| 0 <= i < |edits| && AddedForGood(edits, level, i, f);
      AddedIsListed(edits, level, i, f);
      var m :| 0 <= m < |AllAdds(edits, level)| && AllAdds(edits, level)[m] == f;
      var y := FirstInPlace(AllAdds(edits, level), m);
      var k := AddedBy(edits, level, y);
      SameNumberIsSame(base, edits, level, i, f, k, y);
    }
  }

  lemma SameNumberIsSame(base: seq<FileMeta>, edits: seq<Edit>, level: nat, i: nat, f: FileMeta, k: nat, g: FileMeta)
    requires NeverReadded(base, edits, level) && i < |edits| && k < |edits|
    requires f in AddedAt(edits[i].added, level) && g in AddedAt(edits[k].added, level) && f.number == g.number
    ensures i == k && f == g
  {
  }

  lemma OneOfANumber(base: seq<FileMeta>, edits: seq<Edit>, level: nat, f: FileMeta, g: FileMeta)
    requires NeverReadded(base, edits, level)
    requires Known(base, edits, level, f) && Live(base, edits, level, g) && f.number == g.number
    ensures Live(base, edits, level, f)
  {
    if f !in base {
      var k := AddedBy(edits, level, f);
      var i :| 0 <= i < |edits| && AddedForGood(edits, level, i, g);
      SameNumberIsSame(base, edits, level, i, g, k, f);
    }
  }

  /** Without the proviso it fails: a file deleted, and then added again with other contents, comes
      back beside the new one. */
  lemma ReaddedComesBack(k: IKey)
    ensures var old_, new_ := FileMeta(7, 1, k, k), FileMeta(7, 2, k, k);
            var edits := [Edit({(1, 7)}, []), Edit({}, [(1, new_)])];
            && AfterAll({old_}, edits, 1) == {new_}
            && Saved([old_], ApplyAll(Level({}, []), edits, 1)) == {old_, new_}
  {
    var old_, new_ := FileMeta(7, 1, k, k), FileMeta(7, 2, k, k);
    var e1, e2 := Edit({(1, 7)}, []), Edit({}, [(1, new_)]);
    var edits := [e1, e2];
    assert edits[..1] == [e1] && [e1][..0] == [];
    assert DeletedAt(e1, 1) == {7} by { assert (1, 7) in e1.deleted; }
    assert AddedAt(e2.added, 1) == {new_} by { assert (1, new_) in e2.added; }
    assert AddedAt(e1.added, 1) == {} && DeletedAt(e2, 1) == {};
    assert AfterAll({old_}, [e1], 1) == {};
    assert AfterAll({old_}, edits, 1) == After(AfterAll({old_}, [e1], 1), e2, 1);
    var l1 := ApplyAll(Level({}, []), [e1], 1);
    assert Level({}, []) == ApplyAll(Level({}, []), [], 1) && {} + DeletedAt(e1, 1) == {7};
    assert l1 == AddAll(Level({7}, []), [], 1) == Level({7}, []);
    assert e2.added[..0] == [];
    assert {7} + DeletedAt(e2, 1) == {7} && AddAll(Level({7}, []), [], 1) == Level({7}, []);
    assert ApplyTo(l1, e2, 1) == AddAll(Level({7}, []), e2.added, 1) == AddTo(Level({7}, []), new_) == Level({7} - {7}, [new_]);
    assert ApplyAll(Level({}, []), edits, 1) == ApplyTo(l1, e2, 1);
  }

  // The lists

  lemma SmallerOrder(a: FileMeta, b: FileMeta, c: FileMeta)
    ensures Smaller(a, b) && Smaller(b, c) ==> Smaller(a, c)
    ensures Smaller(a, b) && !Smaller(c, b) ==> Smaller(a, c)
    ensures !Smaller(b, a) && Smaller(b, c) ==> Smaller(a, c)
  {
  }

  /** There is one increasing list of a set of files. */
  lemma {:induction false} OneList(s: seq<FileMeta>, t: seq<FileMeta>)
    requires Increasing(s) && Increasing(t) && FilesOf(s) == FilesOf(t)
    ensures s == t
  {
    assert forall x :: x in s <==> x in FilesOf(t);
    assert forall x :: x in t <==> x in FilesOf(s);
    assert (s != [] ==> s[0] in FilesOf(s)) && (t != [] ==> t[0] in FilesOf(t));
    if s != [] && t != [] {
      assert s[0] in t && t[0] in s;
      forall x ensures x in FilesOf(s[1..]) <==> x in FilesOf(t[1..]) {
        Rest(s, x);
        Rest(t, x);
      }
      OneList(s[1..], t[1..]);
      assert s == [s[0]] + s[1..] && t == [t[0]] + t[1..];
    }
  }

  lemma Rest(s: seq<FileMeta>, x: FileMeta)
    requires Increasing(s) && s != []
    ensures x in s[1..] <==> x in s && x != s[0]
  {
    assert s == [s[0]] + s[1..];
  }

  function MaybeAddFile(v: seq<FileMeta>, f: FileMeta, deleted: set<nat>): seq<FileMeta> {
    if f.number in deleted then v else v + [f]
  }

  /** SaveTo on one level; `b` and `a` are what the two iterators still have to pass. */
  method SaveLevel(base: seq<FileMeta>, l: Level) returns (v: seq<FileMeta>)
    ensures v == Keep(Merge(base, l.added), l.deleted)
  {
    v := [];
    var b, a := base, l.added;
    ghost var all := Left(v, b, a, l.deleted);
    while a != []
      invariant Left(v, b, a, l.deleted) == all
      decreases |a|
    {
      v, b := TakeBases(v, b, a, l.deleted);
      TakeAdded(v, b, a, l.deleted);
      v, a := MaybeAddFile(v, a[0], l.deleted), a[1..];
    }
    v, b := TakeBases(v, b, a, l.deleted);
    Ends(v, base, l);
  }

  /** The base files up to the next added one. */
  method TakeBases(v0: seq<FileMeta>, b0: seq<FileMeta>, a: seq<FileMeta>, deleted: set<nat>) returns (v: seq<FileMeta>, b: seq<FileMeta>)
    ensures Left(v, b, a, deleted) == Left(v0, b0, a, deleted)
    ensures if a == [] then b == [] else b != [] ==> Smaller(a[0], b[0])
  {
    v, b := v0, b0;
    while b != [] && (a == [] || !Smaller(a[0], b[0]))
      invariant Left(v, b, a, deleted) == Left(v0, b0, a, deleted)
      decreases |b|
    {
      TakeBase(v, b, a, deleted);
      v, b := MaybeAddFile(v, b[0], deleted), b[1..];
    }
  }

  /** What is taken, and what the rest will give. */
  ghost function Left(v: seq<FileMeta>, b: seq<FileMeta>, a: seq<FileMeta>, deleted: set<nat>): seq<FileMeta> {
    v + Keep(Merge(b, a), deleted)
  }

  lemma Ends(v: seq<FileMeta>, base: seq<FileMeta>, l: Level)
    ensures Left([], base, l.added, l.deleted) == Keep(Merge(base, l.added), l.deleted)
    ensures Left(v, [], [], l.deleted) == v
  {
  }

  lemma TakeBase(v: seq<FileMeta>, b: seq<FileMeta>, a: seq<FileMeta>, deleted: set<nat>)
    requires b != [] && (a != [] ==> !Smaller(a[0], b[0]))
    ensures Left(v, b, a, deleted) == Left(MaybeAddFile(v, b[0], deleted), b[1..], a, deleted)
  {
    assert b == [b[0]] + b[1..];
    assert Merge(b, a) == [b[0]] + Merge(b[1..], a);
    KeepFirst(v, b[0], Merge(b[1..], a), deleted);
  }

  lemma TakeAdded(v: seq<FileMeta>, b: seq<FileMeta>, a: seq<FileMeta>, deleted: set<nat>)
    requires a != [] && (b != [] ==> Smaller(a[0], b[0]))
    ensures Left(v, b, a, deleted) == Left(MaybeAddFile(v, a[0], deleted), b, a[1..], deleted)
  {
    assert a == [a[0]] + a[1..];
    assert Merge(b, a) == [a[0]] + Merge(b, a[1..]);
    KeepFirst(v, a[0], Merge(b, a[1..]), deleted);
  }

  lemma KeepFirst(v: seq<FileMeta>, f: FileMeta, rest: seq<FileMeta>, deleted: set<nat>)
    ensures v + Keep([f] + rest, deleted) == MaybeAddFile(v, f, deleted) + Keep(rest, deleted)
  {
    assert ([f] + rest)[1..] == rest;
  }

  ghost predicate NoNumberInBoth(base: seq<FileMeta>, added: seq<FileMeta>) {
    forall f, g :: f in added && g in base ==> f.number != g.number
  }

  lemma {:induction false} MergeIncreasing(base: seq<FileMeta>, added: seq<FileMeta>)
    requires Increasing(base) && Increasing(added) && NoNumberInBoth(base, added)
    ensures Increasing(Merge(base, added))
  {
    if base != [] && added != [] {
      if Smaller(added[0], base[0]) {
        MergeIncreasing(base, added[1..]);
        forall x | x in Merge(base, added[1..]) ensures Smaller(added[0], x) {
          FirstIsLeast(base, added, added[0], x);
        }
        Cons(added[0], Merge(base, added[1..]));
      } else {
        assert base[0].number != added[0].number;
        MergeIncreasing(base[1..], added);
        forall x | x in Merge(base[1..], added) ensures Smaller(base[0], x) {
          FirstIsLeast(added, base, base[0], x);
        }
        Cons(base[0], Merge(base[1..], added));
      }
    }
  }

  lemma FirstIsLeast(s: seq<FileMeta>, t: seq<FileMeta>, first: FileMeta, x: FileMeta)
    requires Increasing(s) && Increasing(t) && s != [] && t != [] && first == t[0] && Smaller(t[0], s[0])
    requires x in s || x in t[1..]
    ensures Smaller(first, x)
  {
    if x in s {
      var j :| 0 <= j < |s| && s[j] == x;
      SmallerOrder(first, s[0], x);
    }
  }

  lemma Cons(f: FileMeta, s: seq<FileMeta>)
    requires Increasing(s) && forall x :: x in s ==> Smaller(f, x)
    ensures Increasing([f] + s)
  {
  }

  lemma {:induction false} KeepIncreasing(s: seq<FileMeta>, deleted: set<nat>)
    requires Increasing(s)
    ensures Increasing(Keep(s, deleted))
  {
    if s != [] {
      KeepIncreasing(s[1..], deleted);
      forall x | x in Keep(s[1..], deleted) ensures Smaller(s[0], x) {
        assert x in s[1..];
      }
      Cons(s[0], Keep(s[1..], deleted));
    }
  }

  /** When no number is in both lists, the saved list is the increasing list of the saved files. */
  lemma SavedList(base: seq<FileMeta>, l: Level)
    requires Increasing(base) && Increasing(l.added) && NoNumberInBoth(base, l.added)
    ensures var v := Keep(Merge(base, l.added), l.deleted); Increasing(v) && FilesOf(v) == Saved(base, l)
  {
    MergeIncreasing(base, l.added);
    KeepIncreasing(Merge(base, l.added), l.deleted);
  }

  // Recovery

  type Version = v: seq<seq<FileMeta>> | |v| == 7 witness seq(7, _ => [])

  class Builder {
    const base: Version
    var levels: seq<Level>

    constructor (base: Version)
      ensures this.base == base && levels == seq(7, _ => Level({}, []))
    {
      this.base := base;
      levels := seq(7, _ => Level({}, []));
    }

    method Apply(e: Edit)
      requires |levels| == 7 && (forall d :: d in e.deleted ==> d.0 < 7) && forall a :: a in e.added ==> a.0 < 7
      modifies this
      ensures |levels| == 7 && forall n :: 0 <= n < 7 ==> levels[n] == ApplyTo(old(levels)[n], e, n)
    {
      var rest := e.deleted;
      ghost var gone: set<(nat, nat)> := {};
      while rest != {}
        invariant rest + gone == e.deleted && |levels| == 7
        invariant forall n :: 0 <= n < 7 ==> levels[n] == MarkDeleted(old(levels)[n], gone, n)
        decreases rest
      {
        var d :| d in rest;
        rest := rest - {d};
        forall n | 0 <= n < 7 ensures MarkDeleted(old(levels)[n], gone + {d}, n)
            == if d.0 == n then DeleteFrom(MarkDeleted(old(levels)[n], gone, n), d.1) else MarkDeleted(old(levels)[n], gone, n) {
          OneMark(old(levels)[n], gone, d, n);
        }
        gone := gone + {d};
        levels := levels[d.0 := DeleteFrom(levels[d.0], d.1)];
      }
      assert gone == e.deleted;
      ghost var marked := levels;
      var i := 0;
      while i < |e.added|
        invariant i <= |e.added| && |levels| == 7
        invariant forall n :: 0 <= n < 7 ==> levels[n] == AddAll(marked[n], e.added[..i], n)
      {
        var (to, f) := e.added[i];
        assert e.added[..i + 1][..i] == e.added[..i];
        assert e.added[i] in e.added;
        levels := levels[to := AddTo(levels[to], f)];
        i := i + 1;
      }
      assert e.added[..i] == e.added;
    }

    method SaveTo() returns (v: Version)
      requires |levels| == 7
      ensures forall n :: 0 <= n < 7 ==> v[n] == Keep(Merge(base[n], levels[n].added), levels[n].deleted)
    {
      var out: seq<seq<FileMeta>> := [];
      for n := 0 to 7
        invariant |out| == n && forall m :: 0 <= m < n ==> out[m] == Keep(Merge(base[m], levels[m].added), levels[m].deleted)
      {
        var files := SaveLevel(base[n], levels[n]);
        out := out + [files];
      }
      v := out;
    }
  }

  function MarkDeleted(l: Level, gone: set<(nat, nat)>, n: nat): Level {
    l.(deleted := l.deleted + DeletedAt(Edit(gone, []), n))
  }

  lemma OneMark(l: Level, gone: set<(nat, nat)>, d: (nat, nat), n: nat)
    ensures MarkDeleted(l, gone + {d}, n) == if d.0 == n then DeleteFrom(MarkDeleted(l, gone, n), d.1) else MarkDeleted(l, gone, n)
  {
    var a, b := DeletedAt(Edit(gone, []), n), DeletedAt(Edit(gone + {d}, []), n);
    assert forall x :: x in b <==> x in a || (d.0 == n && x == d.1) by {
      forall x | x in a ensures x in b { assert (n, x) in gone; }
      forall x | d.0 == n && x == d.1 ensures x in b { assert d in gone + {d}; }
    }
  }

  ghost predicate InOrder(base: Version, edits: seq<Edit>) {
    && (forall n :: 0 <= n < 7 ==> Increasing(base[n]) && NeverReadded(base[n], edits, n))
    && forall i :: 0 <= i < |edits| ==> (forall d :: d in edits[i].deleted ==> d.0 < 7) && forall a :: a in edits[i].added ==> a.0 < 7
  }

  /** VersionSet::Recover: every edit of the manifest applied to one builder, saved once.  The levels
      are the increasing lists of the files that the edits leave when applied one by one. */
  method Recover(base: Version, edits: seq<Edit>) returns (v: Version)
    requires InOrder(base, edits)
    ensures forall n :: 0 <= n < 7 ==> Increasing(v[n]) && FilesOf(v[n]) == AfterAll(FilesOf(base[n]), edits, n)
  {
    var builder := new Builder(base);
    var i := 0;
    while i < |edits|
      invariant i <= |edits| && |builder.levels| == 7 && builder.base == base && fresh(builder)
      invariant forall n :: 0 <= n < 7 ==> builder.levels[n] == ApplyAll(Level({}, []), edits[..i], n)
    {
      assert edits[..i + 1][..i] == edits[..i];
      builder.Apply(edits[i]);
      i := i + 1;
    }
    assert edits[..i] == edits;
    v := builder.SaveTo();
    forall n | 0 <= n < 7 ensures Increasing(v[n]) && FilesOf(v[n]) == AfterAll(FilesOf(base[n]), edits, n) {
      BatchIsNew(base[n], edits, n);
      SavedList(base[n], builder.levels[n]);
    }
  }

  lemma BatchIsNew(base: seq<FileMeta>, edits: seq<Edit>, level: nat)
    requires NeverReadded(base, edits, level)
    ensures var l := ApplyAll(Level({}, []), edits, level);
            Increasing(l.added) && NoNumberInBoth(base, l.added) && Saved(base, l) == AfterAll(FilesOf(base), edits, level)
  {
    BatchedIsStepwise(base, edits, level);
    var l := ApplyAll(Level({}, []), edits, level);
    forall f, g | f in l.added && g in base ensures f.number != g.number {
      var i :| 0 <= i < |edits| && f in AddedAt(edits[i].added, level);
    }
  }

  /** LogAndApply, again and again: a version saved after each edit. */
  method ApplyEach(base: Version, edits: seq<Edit>) returns (v: Version)
    requires InOrder(base, edits)
    ensures forall n :: 0 <= n < 7 ==> Increasing(v[n]) && FilesOf(v[n]) == AfterAll(FilesOf(base[n]), edits, n)
  {
    v := base;
    var i := 0;
    while i < |edits|
      invariant i <= |edits|
      invariant forall n :: 0 <= n < 7 ==> Increasing(v[n]) && FilesOf(v[n]) == AfterAll(FilesOf(base[n]), edits[..i], n)
    {
      assert edits[..i + 1][..i] == edits[..i];
      forall n | 0 <= n < 7 ensures NeverReadded(v[n], [edits[i]], n) {
        StillNew(base[n], edits, i, n, v[n]);
      }
      var next := Recover(v, [edits[i]]);
      forall n | 0 <= n < 7 ensures FilesOf(next[n]) == AfterAll(FilesOf(base[n]), edits[..i + 1], n) {
        assert [edits[i]][..0] == [];
        assert AfterAll(FilesOf(v[n]), [edits[i]], n) == After(FilesOf(v[n]), edits[i], n);
      }
      v := next;
      i := i + 1;
    }
    assert edits[..i] == edits;
  }

  /** What earlier edits left shares no number with what the next one adds. */
  lemma {:induction false} StillNew(base: seq<FileMeta>, edits: seq<Edit>, i: nat, level: nat, now: seq<FileMeta>)
    requires NeverReadded(base, edits, level) && i < |edits| && FilesOf(now) == AfterAll(FilesOf(base), edits[..i], level)
    ensures NeverReadded(now, [edits[i]], level)
  {
    forall f, g | f in AddedAt(edits[i].added, level) && g in now ensures f.number != g.number {
      assert g in FilesOf(now);
      Origin(FilesOf(base), edits[..i], level, g);
      if g !in base {
        var j :| 0 <= j < i && g in AddedAt(edits[..i][j].added, level);
        assert g in AddedAt(edits[j].added, level);
      }
    }
  }

  lemma {:induction false} Origin(fs: set<FileMeta>, edits: seq<Edit>, level: nat, g: FileMeta)
    requires g in AfterAll(fs, edits, level)
    ensures g in fs || exists j :: 0 <= j < |edits| && g in AddedAt(edits[j].added, level)
  {
    if edits != [] && g !in AddedAt(edits[|edits| - 1].added, level) {
      Origin(fs, edits[..|edits| - 1], level, g);
    }
  }

  /** Recovery rebuilds the version that was installed last. */
  method RecoverIsLastInstalled(base: Version, edits: seq<Edit>) returns (recovered: Version, installed: Version)
    requires InOrder(base, edits)
    ensures recovered == installed
  {
    recovered := Recover(base, edits);
    installed := ApplyEach(base, edits);
    forall n | 0 <= n < 7 ensures recovered[n] == installed[n] {
      OneList(recovered[n], installed[n]);
    }
  }
}
