/** Which files a compaction takes, and where a flushed memtable may land meanwhile. */
module Pick {
  import opened Keys
  import opened Lsm
  import opened Overlap
  import Lookup

  ghost predicate Misses(s: set<File>, x: UserKey, y: UserKey) {
    forall f :: f in s ==> Hi(f) < x || y < Lo(f)
  }

  ghost predicate AllBelow(s: set<File>, x: UserKey) {
    forall f :: f in s ==> Hi(f) < x
  }

  ghost predicate AllAbove(s: set<File>, y: UserKey) {
    forall f :: f in s ==> y < Lo(f)
  }

  /** A key range that misses every file of `s` lies on one side of all of them: the union of
      their key ranges is connected. */
  ghost predicate NoGap(s: set<File>) {
    forall x, y :: x <= y && Misses(s, x, y) ==> AllBelow(s, x) || AllAbove(s, y)
  }

  /** `g` meets the range from the smallest to the largest user key of `s`. */
  ghost predicate MeetsHull(g: File, s: set<File>) {
    && (exists f :: f in s && Lo(f) <= Hi(g))
    && (exists f :: f in s && Lo(g) <= Hi(f))
  }

  /** Adding files that meet the hull of a connected choice keeps it connected. */
  lemma HullKeepsNoGap(s: set<File>, t: set<File>)
    requires NoGap(s) && forall g :: g in t ==> MeetsHull(g, s)
    ensures NoGap(s + t)
  {
    forall x, y | x <= y && Misses(s + t, x, y)
      ensures AllBelow(s + t, x) || AllAbove(s + t, y)
    {
      assert Misses(s, x, y);
      forall g | g in t
        ensures AllBelow(s, x) ==> Hi(g) < x
        ensures AllAbove(s, y) ==> y < Lo(g)
      {
        var f1 :| f1 in s && Lo(f1) <= Hi(g);
        var f2 :| f2 in s && Lo(g) <= Hi(f2);
        assert g in s + t;
      }
    }
  }

  /** The least closure of a connected seed is connected with it. */
  lemma ClosureKeepsNoGap(s: set<File>, files: seq<File>, b: UserKey, e: UserKey, r: set<File>)
    requires NoGap(s) && IsHull(s, b, e)
    requires Closure(files, Some(b), Some(e), r)
    requires forall c :: Closure(files, Some(b), Some(e), c) ==> r <= c
    ensures NoGap(s + r)
  {
    forall x, y | x <= y && Misses(s + r, x, y)
      ensures AllBelow(s + r, x) || AllAbove(s + r, y)
    {
      assert Misses(s, x, y);
      var below := set f | f in r && Hi(f) < x;
      var above := set f | f in r && y < Lo(f);
      assert forall f :: f in r ==> f in s + r;
      if AllBelow(s, x) {
        assert b <= e < x;
        assert Closure(files, Some(b), Some(e), below);
      } else {
        assert y < b <= e;
        assert Closure(files, Some(b), Some(e), above);
      }
    }
  }

  /** [b, e] is the user-key range of `s`. */
  ghost predicate IsHull(s: set<File>, b: UserKey, e: UserKey) {
    && (exists f :: f in s && Lo(f) == b)
    && (exists f :: f in s && Hi(f) == e)
    && (forall f :: f in s ==> b <= Lo(f) && Hi(f) <= e)
  }

  lemma HullOrder(s: set<File>, b: UserKey, e: UserKey)
    requires IsHull(s, b, e)
    ensures b <= e
    ensures forall g :: Meets(g, Some(b), Some(e)) <==> MeetsHull(g, s)
  {
    var f :| f in s && Lo(f) == b;
    LoHi(f);
    forall g | MeetsHull(g, s)
      ensures Meets(g, Some(b), Some(e))
    {
      var f1 :| f1 in s && Lo(f1) <= Hi(g);
      var f2 :| f2 in s && Lo(g) <= Hi(f2);
    }
    forall g | Meets(g, Some(b), Some(e))
      ensures MeetsHull(g, s)
    {
      var f2 :| f2 in s && Hi(f2) == e;
    }
  }

  /** VersionSet::GetRange, on internal keys as in the source. */
  method GetRange(inputs: seq<File>) returns (smallest: IKey, largest: IKey)
    requires inputs != []
    ensures IsHull(FileSet(inputs), smallest.user, largest.user)
  {
    smallest, largest := Smallest(inputs[0]), Largest(inputs[0]);
    ghost var least, most := inputs[0], inputs[0];
    for i := 1 to |inputs|
      invariant least in inputs && Smallest(least) == smallest
      invariant most in inputs && Largest(most) == largest
      invariant forall k :: 0 <= k < i ==> smallest.user <= Lo(inputs[k]) && Hi(inputs[k]) <= largest.user
    {
      if Before(Smallest(inputs[i]), smallest) {
        smallest := Smallest(inputs[i]);
        least := inputs[i];
      }
      if Before(largest, Largest(inputs[i])) {
        largest := Largest(inputs[i]);
        most := inputs[i];
      }
    }
    assert least in FileSet(inputs) && most in FileSet(inputs);
  }

  /** What the rest of the engine relies on in a choice of inputs. */
  ghost predicate Selected(levels: seq<set<File>>, level: nat, in0: set<File>, in1: set<File>)
    requires level + 1 < |levels|
  {
    && in0 != {} && in0 <= levels[level] && in1 <= levels[level + 1]
    && (forall g :: g in levels[level + 1] ==> (g in in1 <==> MeetsHull(g, in0)))
    && (level == 0 ==> forall f, g :: f in in0 && g in levels[0] && Overlaps(f, g) ==> g in in0)
  }

  // Bytes

  function TotalFileSize(files: seq<File>): nat {
    if files == [] then 0 else TotalFileSize(files[..|files| - 1]) + files[|files| - 1].size
  }

  /** The sizes of two lists add up, and a single file has its own. */
  lemma {:induction false} SizesAdd(a: seq<File>, b: seq<File>, f: File)
    ensures TotalFileSize(a + b) == TotalFileSize(a) + TotalFileSize(b)
    ensures TotalFileSize([f]) == f.size
    decreases |b|
  {
    assert [f][..0] == [];
    if b == [] {
      assert a + b == a;
    } else {
      var n := |b| - 1;
      assert (a + b)[..|a + b| - 1] == a + b[..n];
      SizesAdd(a, b[..n], f);
    }
  }

  method SumSizes(files: seq<File>) returns (sum: nat)
    ensures sum == TotalFileSize(files)
  {
    sum := 0;
    for i := 0 to |files|
      invariant sum == TotalFileSize(files[..i])
    {
      SizesAdd(files[..i], [files[i]], files[i]);
      assert files[..i + 1] == files[..i] + [files[i]];
      sum := sum + files[i].size;
    }
    assert files[..|files|] == files;
  }

  /** The bytes of the files of a list that are chosen, summed over their indices, and how many
      these are. */
  ghost function BytesIn(files: seq<File>, chosen: set<File>): nat {
    if files == [] then 0 else (if files[0] in chosen then files[0].size else 0) + BytesIn(files[1..], chosen)
  }

  ghost function CountIn(files: seq<File>, chosen: set<File>): nat {
    if files == [] then 0 else (if files[0] in chosen then 1 else 0) + CountIn(files[1..], chosen)
  }

  lemma {:induction false} BytesSnoc(files: seq<File>, f: File, chosen: set<File>)
    ensures BytesIn(files + [f], chosen) == BytesIn(files, chosen) + if f in chosen then f.size else 0
    ensures CountIn(files + [f], chosen) == CountIn(files, chosen) + if f in chosen then 1 else 0
  {
    if files == [] {
      assert [] + [f] == [f] && [f][1..] == [];
    } else {
      BytesSnoc(files[1..], f, chosen);
      assert (files + [f])[1..] == files[1..] + [f];
    }
  }

  /** The files that meet a range have the bytes of all files of the list that meet it. */
  lemma {:induction false} BytesMeeting(files: seq<File>, b: Option<UserKey>, e: Option<UserKey>, chosen: set<File>)
    requires forall f :: f in files ==> (f in chosen <==> Meets(f, b, e))
    ensures TotalFileSize(Meeting(files, b, e)) == BytesIn(files, chosen)
    ensures |Meeting(files, b, e)| == CountIn(files, chosen)
  {
    if files != [] {
      var n := |files| - 1;
      assert files == files[..n] + [files[n]];
      BytesMeeting(files[..n], b, e, chosen);
      BytesSnoc(files[..n], files[n], chosen);
      var last := if Meets(files[n], b, e) then [files[n]] else [];
      assert Meeting(files, b, e) == Meeting(files[..n], b, e) + last;
      SizesAdd(Meeting(files[..n], b, e), last, files[n]);
    }
  }

  /** What GetOverlappingInputs returns has the bytes and the number of what it chooses. */
  lemma OverlappingBytes(files: seq<File>, inputs: seq<File>)
    requires Listed(files, inputs)
    ensures TotalFileSize(inputs) == BytesIn(files, FileSet(inputs))
    ensures |inputs| == CountIn(files, FileSet(inputs))
  {
    var b, e :| inputs == Meeting(files, b, e);
    BytesMeeting(files, b, e, FileSet(inputs));
  }

  // SetupOtherInputs

  /** The files of the lower level that go with a choice in the upper one. */
  ghost function Lower(below: seq<File>, in0: set<File>): set<File> {
    set g | g in below && MeetsHull(g, in0)
  }

  /** A choice closed under overlap that has every file meeting the hull of `s`. */
  ghost predicate ClosedOver(files: seq<File>, s: set<File>, c: set<File>) {
    && (forall f :: f in files && MeetsHull(f, s) ==> f in c)
    && (forall f, g :: f in c && g in files && Overlaps(f, g) ==> g in c)
  }

  /** The files of the upper level that meet the hull of `s`; at level 0 the least closure. */
  ghost function Upper(files: seq<File>, level: nat, s: set<File>): set<File> {
    set f | f in files && if level > 0 then MeetsHull(f, s) else forall c :: ClosedOver(files, s, c) ==> f in c
  }

  /** More files of the upper level may be had without more of the lower one, and together they
      are less than 25 files' worth of bytes. */
  ghost predicate Expands(files: seq<File>, below: seq<File>, count: nat, in1: set<File>, x0: set<File>, maxFileSize: nat) {
    && in1 != {} && CountIn(files, x0) > count
    && BytesIn(below, in1) + BytesIn(files, x0) < 25 * maxFileSize
    && CountIn(below, Lower(below, x0)) == CountIn(below, in1)
  }

  /** The inputs SetupOtherInputs ends with. */
  ghost function FinalInputs(files: seq<File>, below: seq<File>, level: nat, start: seq<File>, maxFileSize: nat): (set<File>, set<File>) {
    var in0 := FileSet(start);
    var in1 := Lower(below, in0);
    var x0 := Upper(files, level, in0 + in1);
    if Expands(files, below, |start|, in1, x0, maxFileSize) then (x0, Lower(below, x0)) else (in0, in1)
  }

  lemma UpperIs(files: seq<File>, level: nat, s: set<File>, b: UserKey, e: UserKey, inputs: seq<File>)
    requires IsHull(s, b, e) && (forall f :: f in inputs ==> f in files)
    requires level > 0 ==> inputs == Meeting(files, Some(b), Some(e))
    requires level == 0 ==> Closure(files, Some(b), Some(e), FileSet(inputs))
    requires level == 0 ==> forall c :: Closure(files, Some(b), Some(e), c) ==> FileSet(inputs) <= c
    ensures FileSet(inputs) == Upper(files, level, s)
  {
    HullOrder(s, b, e);
    if level == 0 {
      assert forall c :: Closure(files, Some(b), Some(e), c) <==> ClosedOver(files, s, c);
    }
  }

  lemma LowerIs(below: seq<File>, s: set<File>, b: UserKey, e: UserKey, inputs: seq<File>)
    requires IsHull(s, b, e) && inputs == Meeting(below, Some(b), Some(e))
    ensures FileSet(inputs) == Lower(below, s)
  {
    HullOrder(s, b, e);
  }

  /** VersionSet::SetupOtherInputs.  The choice starts from `inputs0`, and may only grow there. */
  method SetupOtherInputs(v: seq<seq<File>>, ghost levels: seq<set<File>>, level: nat, inputs0: seq<File>, maxFileSize: nat)
    returns (in0: seq<File>, in1: seq<File>)
    requires Lists(v, levels) && level + 1 < |v|
    requires inputs0 != [] && FileSet(inputs0) <= levels[level]
    requires level == 0 ==> forall f, g :: f in inputs0 && g in v[0] && Overlaps(f, g) ==> g in inputs0
    ensures Selected(levels, level, FileSet(in0), FileSet(in1))
    ensures FileSet(inputs0) <= FileSet(in0)
    ensures NoGap(FileSet(inputs0)) ==> NoGap(FileSet(in0) + FileSet(in1))
    ensures (FileSet(in0), FileSet(in1)) == FinalInputs(v[level], v[level + 1], level, inputs0, maxFileSize)
  {
    in0 := inputs0;
    var smallest, largest := GetRange(in0);
    in1 := GetOverlappingInputs(v[level + 1], level + 1, Some(smallest.user), Some(largest.user));
    LowerIs(v[level + 1], FileSet(in0), smallest.user, largest.user, in1);
    if NoGap(FileSet(inputs0)) {
      HullKeepsNoGap(FileSet(in0), FileSet(in1));
    }
    if in1 != [] {
      assert in1[0] in FileSet(in1);
      in0, in1 := ExpandInputs(v, levels, level, in0, in1, maxFileSize);
    }
  }

  /** The part that tries for more files of the upper level without more of the lower. */
  method ExpandInputs(v: seq<seq<File>>, ghost levels: seq<set<File>>, level: nat, start0: seq<File>, start1: seq<File>, maxFileSize: nat)
    returns (in0: seq<File>, in1: seq<File>)
    requires Lists(v, levels) && level + 1 < |v| && start1 != []
    requires Selected(levels, level, FileSet(start0), FileSet(start1))
    requires FileSet(start1) == Lower(v[level + 1], FileSet(start0)) && Listed(v[level + 1], start1)
    ensures Selected(levels, level, FileSet(in0), FileSet(in1))
    ensures FileSet(start0) <= FileSet(in0)
    ensures NoGap(FileSet(start0) + FileSet(start1)) ==> NoGap(FileSet(in0) + FileSet(in1))
    ensures (FileSet(in0), FileSet(in1)) == FinalInputs(v[level], v[level + 1], level, start0, maxFileSize)
  {
    in0, in1 := start0, start1;
    var expanded0 := ExpandUpper(v, level, in0, in1);
    var inputs1Size := SumSizes(in1);
    var expanded0Size := SumSizes(expanded0);
    ExpandsIs(v[level], v[level + 1], |in0|, in1, expanded0, maxFileSize);
    if |expanded0| > |in0| && inputs1Size + expanded0Size < 25 * maxFileSize {
      var newStart, newLimit := GetRange(expanded0);
      var expanded1 := GetOverlappingInputs(v[level + 1], level + 1, Some(newStart.user), Some(newLimit.user));
      LowerIs(v[level + 1], FileSet(expanded0), newStart.user, newLimit.user, expanded1);
      OverlappingBytes(v[level + 1], expanded1);
      if |expanded1| == |in1| {
        ExpansionIsChoice(v, levels, level, FileSet(in0), FileSet(in1), FileSet(expanded0), FileSet(expanded1));
        in0, in1 := expanded0, expanded1;
      }
    }
  }

  lemma ExpandsIs(files: seq<File>, below: seq<File>, count: nat, in1: seq<File>, expanded0: seq<File>, maxFileSize: nat)
    requires Listed(files, expanded0) && Listed(below, in1) && in1 != []
    ensures Expands(files, below, count, FileSet(in1), FileSet(expanded0), maxFileSize)
       <==> && |expanded0| > count && TotalFileSize(in1) + TotalFileSize(expanded0) < 25 * maxFileSize
            && CountIn(below, Lower(below, FileSet(expanded0))) == |in1|
  {
    OverlappingBytes(files, expanded0);
    OverlappingBytes(below, in1);
    assert in1[0] in FileSet(in1);
  }

  /** All files of the upper level that meet the range of both choices. */
  method ExpandUpper(v: seq<seq<File>>, level: nat, in0: seq<File>, in1: seq<File>) returns (expanded0: seq<File>)
    requires level < |v| && in0 + in1 != []
    ensures FileSet(expanded0) == Upper(v[level], level, FileSet(in0) + FileSet(in1)) && Listed(v[level], expanded0)
    ensures exists b, e :: Expanded(v[level], level, FileSet(in0) + FileSet(in1), b, e, FileSet(expanded0))
  {
    var allStart, allLimit := GetRange(in0 + in1);
    assert FileSet(in0 + in1) == FileSet(in0) + FileSet(in1);
    expanded0 := GetOverlappingInputs(v[level], level, Some(allStart.user), Some(allLimit.user));
    ListedFiles(v[level], expanded0);
    UpperIs(v[level], level, FileSet(in0) + FileSet(in1), allStart.user, allLimit.user, expanded0);
    assert Expanded(v[level], level, FileSet(in0) + FileSet(in1), allStart.user, allLimit.user, FileSet(expanded0));
  }

  lemma ListedFiles(files: seq<File>, inputs: seq<File>)
    requires Listed(files, inputs)
    ensures forall f :: f in inputs ==> f in files
  {
  }

  /** An expansion is a legal choice, and connected if the first one was. */
  lemma ExpansionIsChoice(v: seq<seq<File>>, levels: seq<set<File>>, level: nat, in0: set<File>, in1: set<File>, x0: set<File>, x1: set<File>)
    requires Lists(v, levels) && level + 1 < |v| && Selected(levels, level, in0, in1)
    requires exists b, e :: Expanded(v[level], level, in0 + in1, b, e, x0)
    requires x1 == Lower(v[level + 1], x0)
    ensures Selected(levels, level, x0, x1) && in0 <= x0
    ensures NoGap(in0 + in1) ==> NoGap(x0 + x1)
  {
    var b, e :| Expanded(v[level], level, in0 + in1, b, e, x0);
    ExpansionGrows(v[level], level, in0, in1, b, e, x0);
    if NoGap(in0 + in1) {
      ExpansionKeepsNoGap(v[level], level, in0 + in1, b, e, x0, x1);
    }
  }

  /** How SetupOtherInputs grows the level-`level` inputs: all files that meet the range [b, e]
      of the first choice, and at level 0 what those overlap. */
  ghost predicate Expanded(files: seq<File>, level: nat, s: set<File>, b: UserKey, e: UserKey, x0: set<File>) {
    && IsHull(s, b, e) && x0 <= FileSet(files)
    && (level > 0 ==> forall f :: f in x0 <==> f in files && Meets(f, Some(b), Some(e)))
    && (level == 0 ==> Closure(files, Some(b), Some(e), x0) && forall c :: Closure(files, Some(b), Some(e), c) ==> x0 <= c)
  }

  /** Growing the inputs loses none of the first choice ... */
  lemma ExpansionGrows(files: seq<File>, level: nat, in0: set<File>, in1: set<File>, b: UserKey, e: UserKey, x0: set<File>)
    requires Expanded(files, level, in0 + in1, b, e, x0) && in0 <= FileSet(files)
    ensures in0 <= x0
    ensures forall g :: g in in1 && MeetsHull(g, in0) ==> MeetsHull(g, x0)
  {
    var s := in0 + in1;
    forall f | f in in0
      ensures f in x0
    {
      assert f in s;
      LoHi(f);
      assert Meets(f, Some(b), Some(e));
    }
    forall g | g in in1 && MeetsHull(g, in0)
      ensures MeetsHull(g, x0)
    {
      WiderHull(g, in0, x0);
    }
  }

  /** ... and keeps it connected. */
  lemma ExpansionKeepsNoGap(files: seq<File>, level: nat, s: set<File>, b: UserKey, e: UserKey, x0: set<File>, x1: set<File>)
    requires Expanded(files, level, s, b, e, x0) && NoGap(s)
    requires forall g :: g in x1 ==> MeetsHull(g, x0)
    ensures s <= x0 + x1 ==> NoGap(x0 + x1)
  {
    HullOrder(s, b, e);
    if level == 0 {
      ClosureKeepsNoGap(s, files, b, e, x0);
    } else {
      HullKeepsNoGap(s, x0);
    }
    forall g | g in x1
      ensures MeetsHull(g, s + x0)
    {
      WiderHull(g, x0, s + x0);
    }
    HullKeepsNoGap(s + x0, x1);
    assert s <= x0 + x1 ==> s + x0 + x1 == x0 + x1;
  }

  lemma WiderHull(g: File, s: set<File>, t: set<File>)
    requires s <= t && MeetsHull(g, s)
    ensures MeetsHull(g, t)
  {
    var f1 :| f1 in s && Lo(f1) <= Hi(g);
    var f2 :| f2 in s && Lo(g) <= Hi(f2);
    assert f1 in t && f2 in t;
  }

  /** A compaction of `picked` starts from that file alone, or at level 0 from its least closure. */
  ghost predicate StartsFrom(files: seq<File>, level: nat, picked: File, start: seq<File>) {
    if level > 0 then start == [picked] else FileSet(start) == Upper(files, 0, {picked})
  }

  /** VersionSet::PickCompaction, from the file that the size or seek policy has named. */
  method PickCompaction(v: seq<seq<File>>, ghost levels: seq<set<File>>, level: nat, picked: File, maxFileSize: nat)
    returns (in0: seq<File>, in1: seq<File>)
    requires Lists(v, levels) && level + 1 < |v| && picked in v[level]
    ensures Selected(levels, level, FileSet(in0), FileSet(in1))
    ensures picked in in0
    ensures NoGap(FileSet(in0) + FileSet(in1))
    ensures exists start :: StartsFrom(v[level], level, picked, start)
                         && (FileSet(in0), FileSet(in1)) == FinalInputs(v[level], v[level + 1], level, start, maxFileSize)
  {
    var inputs := [picked];
    LoHi(picked);
    assert FileSet(inputs) == {picked};
    assert NoGap({picked});
    if level == 0 {
      var smallest, largest := GetRange(inputs);
      inputs := GetOverlappingInputs(v[0], 0, Some(smallest.user), Some(largest.user));
      ClosureKeepsNoGap({picked}, v[0], smallest.user, largest.user, FileSet(inputs));
      assert {picked} + FileSet(inputs) == FileSet(inputs);
      UpperIs(v[0], 0, {picked}, smallest.user, largest.user, inputs);
    }
    assert StartsFrom(v[level], level, picked, inputs);
    in0, in1 := SetupOtherInputs(v, levels, level, inputs, maxFileSize);
  }

  /** SomeFileOverlapsRange: a scan of level 0, a binary search of a sorted level. */
  method SomeFileOverlapsRange(disjointSorted: bool, files: seq<File>, small: Option<UserKey>, large: Option<UserKey>)
    returns (r: bool)
    requires disjointSorted ==> Ascending(files)
    requires small.Some? ==> Keyed(files)
    ensures r <==> exists f :: f in files && Meets(f, small, large)
  {
    if !disjointSorted {
      for i := 0 to |files|
        invariant forall k :: 0 <= k < i ==> !Meets(files[k], small, large)
      {
        var f := files[i];
        if (small.Some? && small.value > Hi(f)) || (large.Some? && large.value < Lo(f)) {
        } else {
          assert f in files && Meets(f, small, large);
          return true;
        }
      }
      return false;
    }
    var index := 0;
    if small.Some? {
      index := Lookup.FindFile(files, SeekKey(small.value, MAX_SEQUENCE));
    }
    forall k | 0 <= k < |files|
      ensures k < index ==> !Meets(files[k], small, large)
      ensures k >= index ==> (small.None? || small.value <= Hi(files[k])) && Lo(files[index]) <= Lo(files[k])
    {
      if k < index {
        assert Before(Largest(files[k]), SeekKey(small.value, MAX_SEQUENCE));
        assert files[k] in files;
      } else if k > index {
        LoHi(files[index]);
      }
    }
    if index >= |files| {
      return false;
    }
    r := !(large.Some? && large.value < Lo(files[index]));
    assert r ==> files[index] in files && Meets(files[index], small, large);
  }

  /** Sequence numbers fit in 56 bits, so no stored key sorts before the seek key of its user key. */
  ghost predicate Keyed(files: seq<File>) {
    forall f :: f in files ==> f.entries[|f.entries| - 1].sequence <= MAX_SEQUENCE
  }

  ghost predicate Clear(files: seq<File>, small: Option<UserKey>, large: Option<UserKey>) {
    forall f :: f in files ==> !Meets(f, small, large)
  }

  /** Version::OverlapInLevel; a range may be open at either end. */
  method OverlapInLevel(v: seq<seq<File>>, level: nat, small: Option<UserKey>, large: Option<UserKey>) returns (r: bool)
    requires level < |v| && (level > 0 ==> Ascending(v[level])) && (small.Some? ==> Keyed(v[level]))
    ensures r <==> !Clear(v[level], small, large)
  {
    r := SomeFileOverlapsRange(level > 0, v[level], small, large);
  }

  /** The files that meet the range have more than ten files' worth of bytes. */
  ghost predicate Crowded(files: seq<File>, small: UserKey, large: UserKey, maxFileSize: nat) {
    BytesIn(files, set f | f in files && Meets(f, Some(small), Some(large))) > 10 * maxFileSize
  }

  /** A level that the search for an output level may pass through. */
  ghost predicate Passable(v: seq<seq<File>>, level: nat, small: UserKey, large: UserKey, maxFileSize: nat)
    requires level + 1 < |v|
  {
    Clear(v[level], Some(small), Some(large)) && !Crowded(v[level + 1], small, large, maxFileSize)
  }

  method OverlapsTooMuch(files: seq<File>, level: nat, small: UserKey, large: UserKey, maxFileSize: nat) returns (r: bool)
    requires level > 0
    ensures r == Crowded(files, small, large, maxFileSize)
  {
    var overlaps := GetOverlappingInputs(files, level, Some(small), Some(large));
    BytesMeeting(files, Some(small), Some(large), set f | f in files && Meets(f, Some(small), Some(large)));
    var sum := SumSizes(overlaps);
    r := sum > 10 * maxFileSize;
  }

  /** Version::PickLevelForMemTableOutput: as deep as level 2, past levels that the new file
      does not overlap, unless it would overlap too many bytes two levels down. */
  method PickLevelForMemTableOutput(v: seq<seq<File>>, small: UserKey, large: UserKey, maxFileSize: nat)
    returns (level: nat)
    requires |v| == NUM_LEVELS && (forall i :: 1 <= i < NUM_LEVELS ==> Ascending(v[i]))
    requires forall i :: 0 <= i < NUM_LEVELS ==> Keyed(v[i])
    ensures level <= MAX_MEM_COMPACT_LEVEL
    ensures level > 0 ==> Clear(v[0], Some(small), Some(large))
    ensures forall i :: 0 < i <= level ==> Passable(v, i, small, large, maxFileSize)
    ensures level == MAX_MEM_COMPACT_LEVEL || (level == 0 && !Clear(v[0], Some(small), Some(large)))
         || !Passable(v, level + 1, small, large, maxFileSize)
  {
    level := 0;
    var overlap := OverlapInLevel(v, 0, Some(small), Some(large));
    if overlap {
      return;
    }
    while level < MAX_MEM_COMPACT_LEVEL
      invariant level <= MAX_MEM_COMPACT_LEVEL
      invariant forall i :: 0 < i <= level ==> Passable(v, i, small, large, maxFileSize)
    {
      var pass := CanPass(v, level + 1, small, large, maxFileSize);
      if !pass {
        return;
      }
      level := level + 1;
    }
  }

  /** The two tests that stop the search. */
  method CanPass(v: seq<seq<File>>, level: nat, small: UserKey, large: UserKey, maxFileSize: nat) returns (pass: bool)
    requires 0 < level && level + 1 < |v| && Ascending(v[level]) && Keyed(v[level])
    ensures pass == Passable(v, level, small, large, maxFileSize)
  {
    var overlap := OverlapInLevel(v, level, Some(small), Some(large));
    if overlap {
      return false;
    }
    var crowded := OverlapsTooMuch(v[level + 1], level + 1, small, large, maxFileSize);
    pass := !crowded;
  }
}
