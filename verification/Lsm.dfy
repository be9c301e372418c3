/** Table files, levels, and the order in which a lookup may search them. */
module Lsm {
  import opened Keys
  import opened Reads

  /** config::kNumLevels and config::kMaxMemCompactLevel. */
  const NUM_LEVELS := 7
  const MAX_MEM_COMPACT_LEVEL := 2

  /** A table file: its number, its size in bytes and its entries in internal-key order. */
  datatype Table = Table(number: nat, size: nat, entries: seq<Entry>)
  type File = f: Table | f.entries != [] && Sorted(f.entries) witness Table(0, 0, [Entry(0.0, 0, Delete)])

  function Smallest(f: File): IKey { KeyOf(f.entries[0]) }
  function Largest(f: File): IKey { KeyOf(f.entries[|f.entries| - 1]) }

  function Contents(files: set<File>): set<Entry> {
    set f, e | f in files && e in f.entries :: e
  }

  function AllContents(levels: seq<set<File>>): set<Entry> {
    set i, f, e | 0 <= i < |levels| && f in levels[i] && e in f.entries :: e
  }

  function FileSet(files: seq<File>): set<File> {
    set f | f in files
  }

  /** Every entry of a key in `a` was written after every entry of that key in `b`. */
  ghost predicate NewerThan(a: set<Entry>, b: set<Entry>) {
    forall x, y :: x in a && y in b && x.user == y.user ==> x.sequence > y.sequence
  }

  ghost predicate FileNewer(f: File, g: File) {
    forall x, y :: x in f.entries && y in g.entries && x.user == y.user ==> x.sequence > y.sequence
  }

  predicate Apart(f: File, g: File) {
    Before(Largest(f), Smallest(g)) || Before(Largest(g), Smallest(f))
  }

  ghost predicate DisjointLevel(files: set<File>) {
    forall f, g :: f in files && g in files && f != g ==> Apart(f, g)
  }

  /** Level 0: a larger file number means newer entries. */
  ghost predicate NumberedByAge(files: set<File>) {
    && (forall f, g :: f in files && g in files && f.number == g.number ==> f == g)
    && (forall f, g :: f in files && g in files && f.number > g.number ==> FileNewer(f, g))
  }

  /** A lower level holds the newer entries of every key. */
  ghost predicate RecentFirst(levels: seq<set<File>>) {
    forall i, j, f, g :: 0 <= i < j < |levels| && f in levels[i] && g in levels[j] ==> FileNewer(f, g)
  }

  /** What version_set.cc keeps true of a version. */
  ghost predicate WellOrdered(levels: seq<set<File>>) {
    && |levels| == NUM_LEVELS
    && (forall i :: 1 <= i < NUM_LEVELS ==> DisjointLevel(levels[i]))
    && NumberedByAge(levels[0])
    && RecentFirst(levels)
  }

  /** files_[level] as the version stores it: levels above 0 as sorted lists. */
  ghost predicate Ascending(files: seq<File>) {
    forall i, j :: 0 <= i < j < |files| ==> Before(Largest(files[i]), Smallest(files[j]))
  }

  ghost predicate Lists(v: seq<seq<File>>, levels: seq<set<File>>) {
    && |v| == |levels|
    && (forall i :: 0 <= i < |v| ==> FileSet(v[i]) == levels[i])
    && (forall i :: 1 <= i < |v| ==> Ascending(v[i]))
  }

  /** Every entry of a file lies between its smallest and largest key. */
  lemma Bounds(f: File, e: Entry)
    requires e in f.entries
    ensures AtOrBefore(Smallest(f), KeyOf(e)) && AtOrBefore(KeyOf(e), Largest(f))
  {
  }
}

/** Looking through layers of entries and answering from the first that has a visible one. */
module Searching {
  import opened Keys
  import opened Reads
  import opened Lsm

  function LevelEntries(levels: seq<set<File>>): (r: seq<set<Entry>>) {
    seq(|levels|, i requires 0 <= i < |levels| => Contents(levels[i]))
  }

  /** What DBImpl::Get looks through, in that order. */
  function Layers(mem: set<Entry>, imm: set<Entry>, levels: seq<set<File>>): seq<set<Entry>> {
    [mem, imm] + LevelEntries(levels)
  }

  function Union(layers: seq<set<Entry>>): set<Entry> {
    set i, e | 0 <= i < |layers| && e in layers[i] :: e
  }

  /** Every layer is newer, key by key, than every later one. */
  ghost predicate InAgeOrder(layers: seq<set<Entry>>) {
    forall i, j :: 0 <= i < j < |layers| ==> NewerThan(layers[i], layers[j])
  }

  ghost function Search(layers: seq<set<Entry>>, u: UserKey, s: nat): Option<Bytes> {
    if layers == [] then None
    else if NoneVisible(layers[0], u, s) then Search(layers[1..], u, s)
    else Read(layers[0], u, s)
  }

  ghost predicate HitAt(layers: seq<set<Entry>>, u: UserKey, s: nat, e: Entry, i: nat) {
    && i < |layers| && Newest(layers[i], u, s, e)
    && forall k :: 0 <= k < i ==> NoneVisible(layers[k], u, s)
  }

  /** `e` is the newest visible entry of the first layer that has one. */
  ghost predicate FirstHit(layers: seq<set<Entry>>, u: UserKey, s: nat, e: Entry) {
    exists i: nat :: HitAt(layers, u, s, e, i)
  }

  lemma UnionOfLevels(levels: seq<set<File>>)
    ensures Union(LevelEntries(levels)) == AllContents(levels)
  {
    forall e | e in AllContents(levels)
      ensures e in Union(LevelEntries(levels))
    {
      var i, f :| 0 <= i < |levels| && f in levels[i] && e in f.entries;
      assert e in LevelEntries(levels)[i];
    }
  }

  lemma UnionOfLayers(mem: set<Entry>, imm: set<Entry>, levels: seq<set<File>>)
    ensures Union(Layers(mem, imm, levels)) == mem + imm + AllContents(levels)
  {
    var layers := Layers(mem, imm, levels);
    UnionOfLevels(levels);
    forall e | e in mem + imm + AllContents(levels)
      ensures e in Union(layers)
    {
      if e in mem {
        assert e in layers[0];
      } else if e in imm {
        assert e in layers[1];
      } else {
        var i :| 0 <= i < |levels| && e in LevelEntries(levels)[i];
        assert e in layers[i + 2];
      }
    }
  }

  /** Memory newer than the levels, and the levels in order of age. */
  lemma LayersInAgeOrder(mem: set<Entry>, imm: set<Entry>, levels: seq<set<File>>)
    requires NewerThan(mem, imm) && NewerThan(mem, AllContents(levels)) && NewerThan(imm, AllContents(levels))
    requires RecentFirst(levels)
    ensures InAgeOrder(Layers(mem, imm, levels))
  {
    var layers := Layers(mem, imm, levels);
    forall i, j, x: Entry, y: Entry | 0 <= i < j < |layers| && x in layers[i] && y in layers[j] && x.user == y.user
      ensures x.sequence > y.sequence
    {
      if j >= 2 {
        var g :| g in levels[j - 2] && y in g.entries;
        if i >= 2 {
          var f :| f in levels[i - 2] && x in f.entries;
          assert FileNewer(f, g);
        }
      }
    }
  }

  lemma {:induction false} SearchHit(layers: seq<set<Entry>>, u: UserKey, s: nat, e: Entry)
    requires Unique(Union(layers)) && FirstHit(layers, u, s, e)
    ensures Search(layers, u, s) == Outcome(e)
  {
    var i: nat :| HitAt(layers, u, s, e, i);
    UnionFirst(layers);
    if i == 0 {
      ReadIs(layers[0], u, s, e);
    } else {
      assert NoneVisible(layers[0], u, s);
      assert HitAt(layers[1..], u, s, e, i - 1);
      SearchHit(layers[1..], u, s, e);
    }
  }

  lemma UnionFirst(layers: seq<set<Entry>>)
    requires layers != []
    ensures Union(layers) == layers[0] + Union(layers[1..])
  {
    forall e | e in Union(layers)
      ensures e in layers[0] + Union(layers[1..])
    {
      var i :| 0 <= i < |layers| && e in layers[i];
      if i > 0 {
        assert e in layers[1..][i - 1];
      }
    }
  }

  lemma {:induction false} SearchMiss(layers: seq<set<Entry>>, u: UserKey, s: nat)
    requires NoneVisible(Union(layers), u, s)
    ensures Search(layers, u, s) == None
  {
    if layers != [] {
      UnionFirst(layers);
      SearchMiss(layers[1..], u, s);
    }
  }

  /** A newer set with a visible entry decides the read of the two together. */
  lemma NewerDecides(a: set<Entry>, b: set<Entry>, u: UserKey, s: nat)
    requires Unique(a + b) && NewerThan(a, b) && !NoneVisible(a, u, s)
    ensures Read(a + b, u, s) == Read(a, u, s)
  {
    NewestExists(a, u, s);
    var e :| Newest(a, u, s, e);
    assert Newest(a + b, u, s, e);
    ReadIs(a, u, s, e);
    ReadIs(a + b, u, s, e);
  }

  /** Searching layers in order of age is reading all of them together. */
  lemma {:induction false} SearchIsRead(layers: seq<set<Entry>>, u: UserKey, s: nat)
    requires InAgeOrder(layers) && Unique(Union(layers))
    ensures Search(layers, u, s) == Read(Union(layers), u, s)
  {
    if layers != [] {
      var rest := layers[1..];
      UnionFirst(layers);
      assert forall i :: 0 <= i < |rest| ==> rest[i] == layers[i + 1];
      SearchIsRead(rest, u, s);
      if NoneVisible(layers[0], u, s) {
        assert layers[0] + Union(rest) == Union(rest) + layers[0];
        SameVisible(Union(rest), layers[0], u, s);
      } else {
        NewerDecides(layers[0], Union(rest), u, s);
      }
    }
  }

  /** The first `k` layers answer if they can. */
  lemma {:induction false} SearchFrom(layers: seq<set<Entry>>, k: nat, u: UserKey, s: nat)
    requires k <= |layers|
    ensures Search(layers, u, s)
         == if NoneVisible(Union(layers[..k]), u, s) then Search(layers[k..], u, s) else Search(layers[..k], u, s)
  {
    if k == 0 {
      assert layers[0..] == layers;
    } else {
      var rest := layers[1..];
      UnionFirst(layers[..k]);
      SearchFrom(rest, k - 1, u, s);
      assert layers[..k][1..] == rest[..k - 1] && rest[k - 1..] == layers[k..];
    }
  }
}

/** FindFile, Version::Get and DBImpl::Get. */
module Lookup {
  import opened Keys
  import opened Reads
  import opened Lsm
  import opened Searching

  /** The index of the first file whose largest key is at or after `key`. */
  method FindFile(files: seq<File>, key: IKey) returns (right: nat)
    requires Ascending(files)
    ensures right <= |files|
    ensures forall i :: 0 <= i < right ==> Before(Largest(files[i]), key)
    ensures forall i :: right <= i < |files| ==> !Before(Largest(files[i]), key)
  {
    var left := 0;
    right := |files|;
    while left < right
      invariant left <= right <= |files|
      invariant forall i :: 0 <= i < left ==> Before(Largest(files[i]), key)
      invariant forall i :: right <= i < |files| ==> !Before(Largest(files[i]), key)
    {
      var mid := (left + right) / 2;
      if Before(Largest(files[mid]), key) {
        left := mid + 1;
      } else {
        right := mid;
      }
    }
  }

  /** Table::InternalGet followed by SaveValue: the first entry at or after the sought key is
      handed over, and kept if it belongs to the sought user key. */
  method SeekTable(es: seq<Entry>, u: UserKey, s: nat) returns (r: Option<Entry>)
    requires Sorted(es)
    ensures r.Some? ==> Newest(EntrySet(es), u, s, r.value)
    ensures r.None? ==> NoneVisible(EntrySet(es), u, s)
  {
    var key := SeekKey(u, s);
    var i := 0;
    while i < |es| && Before(KeyOf(es[i]), key)
      invariant i <= |es|
      invariant forall k :: 0 <= k < i ==> Before(KeyOf(es[k]), key)
    {
      i := i + 1;
    }
    if i < |es| && es[i].user == u {
      r := Some(es[i]);
    } else {
      r := None;
    }
  }

  /** The level-0 files whose user-key range holds `u`, newest first: the selection loop and
      std::sort with NewestFirst, merged into one insertion. */
  method NewestFirst(files: seq<File>, u: UserKey) returns (tmp: seq<File>)
    requires NumberedByAge(FileSet(files))
    ensures forall f :: f in tmp <==> f in files && Smallest(f).user <= u <= Largest(f).user
    ensures forall i, j :: 0 <= i < j < |tmp| ==> tmp[i].number >= tmp[j].number
  {
    tmp := [];
    for n := 0 to |files|
      invariant forall f :: f in tmp <==> f in files[..n] && Smallest(f).user <= u <= Largest(f).user
      invariant forall i, j :: 0 <= i < j < |tmp| ==> tmp[i].number >= tmp[j].number
    {
      var f := files[n];
      assert files[..n + 1] == files[..n] + [f];
      if Smallest(f).user <= u && u <= Largest(f).user {
        var at := 0;
        while at < |tmp| && tmp[at].number > f.number
          invariant at <= |tmp|
          invariant forall i :: 0 <= i < at ==> tmp[i].number > f.number
        {
          at := at + 1;
        }
        tmp := tmp[..at] + [f] + tmp[at..];
      }
    }
    assert files[..|files|] == files;
  }

  /** The entries of level `i` when it is searched: only files that can hold `u` matter. */
  lemma OutsideRange(f: File, u: UserKey, s: nat)
    requires !(Smallest(f).user <= u <= Largest(f).user)
    ensures NoneVisible(EntrySet(f.entries), u, s)
  {
    forall e | e in f.entries
      ensures e.user != u
    {
      Bounds(f, e);
    }
  }

  method SearchLevel0(files: seq<File>, u: UserKey, s: nat) returns (r: Option<Entry>)
    requires NumberedByAge(FileSet(files))
    ensures r.Some? ==> Newest(Contents(FileSet(files)), u, s, r.value)
    ensures r.None? ==> NoneVisible(Contents(FileSet(files)), u, s)
  {
    var tmp := NewestFirst(files, u);
    for n := 0 to |tmp|
      invariant forall k :: 0 <= k < n ==> NoneVisible(EntrySet(tmp[k].entries), u, s)
    {
      r := SeekTable(tmp[n].entries, u, s);
      if r.Some? {
        Level0Hit(files, tmp, n, u, s, r.value);
        return;
      }
    }
    r := None;
    Level0Miss(files, tmp, u, s);
  }

  /** Files skipped by the range test and older files cannot beat the first level-0 hit. */
  lemma Level0Hit(files: seq<File>, tmp: seq<File>, n: nat, u: UserKey, s: nat, e: Entry)
    requires NumberedByAge(FileSet(files)) && n < |tmp|
    requires forall f :: f in tmp <==> f in files && Smallest(f).user <= u <= Largest(f).user
    requires forall i, j :: 0 <= i < j < |tmp| ==> tmp[i].number >= tmp[j].number
    requires forall k :: 0 <= k < n ==> NoneVisible(EntrySet(tmp[k].entries), u, s)
    requires Newest(EntrySet(tmp[n].entries), u, s, e)
    ensures Newest(Contents(FileSet(files)), u, s, e)
  {
    var g := tmp[n];
    assert g in tmp;
    forall x | x in Contents(FileSet(files)) && Visible(x, u, s)
      ensures x.sequence <= e.sequence
    {
      var f :| f in files && x in f.entries;
      assert x in EntrySet(f.entries);
      if f !in tmp {
        OutsideRange(f, u, s);
      } else {
        var k :| 0 <= k < |tmp| && tmp[k] == f;
        assert k >= n;
        if f != g {
          assert g.number > f.number;
          assert FileNewer(g, f);
        }
      }
    }
  }

  lemma Level0Miss(files: seq<File>, tmp: seq<File>, u: UserKey, s: nat)
    requires forall f :: f in tmp <==> f in files && Smallest(f).user <= u <= Largest(f).user
    requires forall k :: 0 <= k < |tmp| ==> NoneVisible(EntrySet(tmp[k].entries), u, s)
    ensures NoneVisible(Contents(FileSet(files)), u, s)
  {
    forall x | x in Contents(FileSet(files))
      ensures !Visible(x, u, s)
    {
      var f :| f in files && x in f.entries;
      assert x in EntrySet(f.entries);
      if f !in tmp {
        OutsideRange(f, u, s);
      }
    }
  }

  method SearchLevel(files: seq<File>, u: UserKey, s: nat) returns (r: Option<Entry>)
    requires Ascending(files)
    ensures r.Some? ==> Newest(Contents(FileSet(files)), u, s, r.value)
    ensures r.None? ==> NoneVisible(Contents(FileSet(files)), u, s)
  {
    var index := FindFile(files, SeekKey(u, s));
    r := None;
    if index < |files| && !(u < Smallest(files[index]).user) {
      r := SeekTable(files[index].entries, u, s);
    }
    forall x | x in Contents(FileSet(files)) && Visible(x, u, s)
      ensures r.Some? && x.sequence <= r.value.sequence
    {
      var f :| f in files && x in f.entries;
      var k :| 0 <= k < |files| && files[k] == f;
      Bounds(f, x);
      assert k >= index;
      SearchedFileHasNewest(files, index, k, u, s, x);
    }
  }

  /** In a sorted level, the file that FindFile returns has a visible entry at least as new as
      any visible entry of a later file, even when the user key straddles the two files. */
  lemma SearchedFileHasNewest(files: seq<File>, index: nat, k: nat, u: UserKey, s: nat, x: Entry)
    requires Ascending(files)
    requires index <= k < |files| && x in files[k].entries && Visible(x, u, s)
    requires !Before(Largest(files[index]), SeekKey(u, s))
    ensures Smallest(files[index]).user <= u
    ensures exists y :: y in files[index].entries && Visible(y, u, s) && y.sequence >= x.sequence
  {
    Bounds(files[k], x);
    if k == index {
      Bounds(files[index], x);
    } else {
      var f := files[index];
      var y := f.entries[|f.entries| - 1];
      Bounds(f, f.entries[0]);
      assert Before(Largest(f), Smallest(files[k]));
    }
  }

  /** Version::Get: level 0 newest file first, then each sorted level by binary search. */
  method GetFromVersion(v: seq<seq<File>>, ghost levels: seq<set<File>>, u: UserKey, s: nat)
    returns (r: Option<Entry>)
    requires |levels| == NUM_LEVELS && NumberedByAge(levels[0]) && Lists(v, levels)
    ensures r.Some? ==> FirstHit(LevelEntries(levels), u, s, r.value)
    ensures r.None? ==> NoneVisible(AllContents(levels), u, s)
    ensures r.Some? && RecentFirst(levels) ==> Newest(AllContents(levels), u, s, r.value)
  {
    for level := 0 to NUM_LEVELS
      invariant forall i :: 0 <= i < level ==> NoneVisible(LevelEntries(levels)[i], u, s)
    {
      if level == 0 {
        r := SearchLevel0(v[0], u, s);
      } else {
        r := SearchLevel(v[level], u, s);
      }
      if r.Some? {
        assert HitAt(LevelEntries(levels), u, s, r.value, level);
        if RecentFirst(levels) {
          FirstHitIsNewest(levels, u, s, r.value);
        }
        return;
      }
    }
    r := None;
    forall x | x in AllContents(levels)
      ensures !Visible(x, u, s)
    {
      var i, f :| 0 <= i < |levels| && f in levels[i] && x in f.entries;
      assert x in LevelEntries(levels)[i];
    }
  }

  /** Searching level by level may stop at the first hit. */
  lemma FirstHitIsNewest(levels: seq<set<File>>, u: UserKey, s: nat, e: Entry)
    requires RecentFirst(levels) && FirstHit(LevelEntries(levels), u, s, e)
    ensures Newest(AllContents(levels), u, s, e)
  {
    var level: nat :| HitAt(LevelEntries(levels), u, s, e, level);
    var g :| g in levels[level] && e in g.entries;
    forall x | x in AllContents(levels) && Visible(x, u, s)
      ensures x.sequence <= e.sequence
    {
      var i, f :| 0 <= i < |levels| && f in levels[i] && x in f.entries;
      assert x in LevelEntries(levels)[i];
      if i > level {
        assert FileNewer(g, f);
      }
    }
  }

  /** DBImpl::Get: the memtable, then the immutable memtable, then the version.  It answers from
      the first of them that has a visible entry; that is the read of all entries together when
      each of them is newer than the next. */
  method Get(mem: seq<Entry>, imm: seq<Entry>, v: seq<seq<File>>, ghost levels: seq<set<File>>, u: UserKey, s: nat)
    returns (value: Option<Bytes>)
    requires Sorted(mem) && Sorted(imm)
    requires |levels| == NUM_LEVELS && NumberedByAge(levels[0]) && Lists(v, levels)
    requires Unique(EntrySet(mem) + EntrySet(imm) + AllContents(levels))
    ensures value == Search(Layers(EntrySet(mem), EntrySet(imm), levels), u, s)
    ensures InAgeOrder(Layers(EntrySet(mem), EntrySet(imm), levels))
        ==> value == Read(EntrySet(mem) + EntrySet(imm) + AllContents(levels), u, s)
  {
    ghost var layers := Layers(EntrySet(mem), EntrySet(imm), levels);
    UnionOfLayers(EntrySet(mem), EntrySet(imm), levels);
    var r := SeekTable(mem, u, s);
    if r.None? {
      r := SeekTable(imm, u, s);
      if r.None? {
        r := GetFromVersion(v, levels, u, s);
        HitBelowMemory(EntrySet(mem), EntrySet(imm), levels, u, s, r);
      } else {
        assert HitAt(layers, u, s, r.value, 1);
      }
    } else {
      assert HitAt(layers, u, s, r.value, 0);
    }
    if r.Some? {
      SearchHit(layers, u, s, r.value);
      value := Outcome(r.value);
    } else {
      value := None;
    }
    if InAgeOrder(layers) {
      SearchIsRead(layers, u, s);
    }
  }

  lemma HitBelowMemory(mem: set<Entry>, imm: set<Entry>, levels: seq<set<File>>, u: UserKey, s: nat, r: Option<Entry>)
    requires NoneVisible(mem, u, s) && NoneVisible(imm, u, s)
    requires r.Some? ==> FirstHit(LevelEntries(levels), u, s, r.value)
    requires r.None? ==> NoneVisible(AllContents(levels), u, s)
    ensures r.Some? ==> FirstHit(Layers(mem, imm, levels), u, s, r.value)
    ensures r.None? ==> Search(Layers(mem, imm, levels), u, s) == None
  {
    var layers := Layers(mem, imm, levels);
    if r.Some? {
      var i: nat :| HitAt(LevelEntries(levels), u, s, r.value, i);
      assert forall k :: 2 <= k < |layers| ==> layers[k] == LevelEntries(levels)[k - 2];
      assert HitAt(layers, u, s, r.value, i + 2);
    } else {
      UnionOfLayers(mem, imm, levels);
      SearchMiss(layers, u, s);
    }
  }
}
