/** Choosing files by key range: GetOverlappingInputs, SetupOtherInputs and
    PickLevelForMemTableOutput, all of which compare user keys only. */
module Overlap {
  import opened Keys
  import opened Lsm

  function Lo(f: File): UserKey { Smallest(f).user }
  function Hi(f: File): UserKey { Largest(f).user }

  lemma LoHi(f: File)
    ensures Lo(f) <= Hi(f)
  {
    Bounds(f, f.entries[0]);
  }

  /** The two user-key ranges share a key. */
  predicate Overlaps(f: File, g: File) {
    Lo(f) <= Hi(g) && Lo(g) <= Hi(f)
  }

  /** `f` meets the range; a missing end leaves that side open. */
  predicate Meets(f: File, begin: Option<UserKey>, end: Option<UserKey>) {
    (begin.None? || begin.value <= Hi(f)) && (end.None? || Lo(f) <= end.value)
  }

  /** The files that meet the range, in the order of the list. */
  function Meeting(files: seq<File>, begin: Option<UserKey>, end: Option<UserKey>): (r: seq<File>)
    ensures forall f :: f in r <==> f in files && Meets(f, begin, end)
  {
    if files == [] then []
    else
      var n := |files| - 1;
      assert files == files[..n] + [files[n]];
      Meeting(files[..n], begin, end) + (if Meets(files[n], begin, end) then [files[n]] else [])
  }

  lemma MeetingSnoc(files: seq<File>, n: nat, begin: Option<UserKey>, end: Option<UserKey>)
    requires n < |files|
    ensures Meeting(files[..n + 1], begin, end)
         == Meeting(files[..n], begin, end) + (if Meets(files[n], begin, end) then [files[n]] else [])
  {
    assert files[..n + 1][..n] == files[..n];
  }

  lemma MeetingNone(files: seq<File>, begin: Option<UserKey>, end: Option<UserKey>)
    ensures Meeting(files[..0], begin, end) == [] && Within([], begin, end)
  {
  }

  lemma WithinSnoc(inputs: seq<File>, f: File, b: Option<UserKey>, e: Option<UserKey>)
    requires Within(inputs, b, e) && Within([f], b, e)
    ensures Within(inputs + [f], b, e)
  {
  }

  /** All files of the list that meet some range, in the order of the list. */
  ghost predicate Listed(files: seq<File>, inputs: seq<File>) {
    exists b, e :: inputs == Meeting(files, b, e)
  }

  lemma IsListed(files: seq<File>, b: Option<UserKey>, e: Option<UserKey>)
    ensures Listed(files, Meeting(files, b, e))
  {
  }

  /** A choice that contains all files meeting the range and, with a file, all that overlap it. */
  ghost predicate Closure(files: seq<File>, begin: Option<UserKey>, end: Option<UserKey>, c: set<File>) {
    && (forall f :: f in files && Meets(f, begin, end) ==> f in c)
    && (forall f, g :: f in c && g in files && Overlaps(f, g) ==> g in c)
  }

  /** Every closure has to contain the files that meet [b, e]. */
  ghost predicate Forced(files: seq<File>, begin: Option<UserKey>, end: Option<UserKey>, b: Option<UserKey>, e: Option<UserKey>) {
    forall c, f :: Closure(files, begin, end, c) && f in files && Meets(f, b, e) ==> f in c
  }

  function CanWiden(files: seq<File>, b: Option<UserKey>, e: Option<UserKey>): nat {
    if files == [] then 0
    else
      CanWiden(files[1..], b, e)
      + (if b.Some? && Lo(files[0]) < b.value then 1 else 0)
      + (if e.Some? && Hi(files[0]) > e.value then 1 else 0)
  }

  /** Moving an end of the range to an end of a listed file leaves fewer ends that can widen it. */
  lemma {:induction false} WideningDecreases(files: seq<File>, b: Option<UserKey>, e: Option<UserKey>, b': Option<UserKey>, e': Option<UserKey>)
    requires b.Some? == b'.Some? && (b.Some? ==> b'.value <= b.value)
    requires e.Some? == e'.Some? && (e.Some? ==> e'.value >= e.value)
    ensures CanWiden(files, b', e') <= CanWiden(files, b, e)
    ensures (exists f :: f in files && b.Some? && b'.value == Lo(f) < b.value) ==> CanWiden(files, b', e') < CanWiden(files, b, e)
    ensures (exists f :: f in files && e.Some? && e'.value == Hi(f) > e.value) ==> CanWiden(files, b', e') < CanWiden(files, b, e)
  {
    if files != [] {
      WideningDecreases(files[1..], b, e, b', e');
      assert forall f :: f in files ==> f == files[0] || f in files[1..];
    }
  }

  lemma ForcedByFile(files: seq<File>, begin: Option<UserKey>, end: Option<UserKey>, b: Option<UserKey>, e: Option<UserKey>, f: File)
    requires Forced(files, begin, end, b, e) && f in files && Meets(f, b, e)
    ensures b.Some? && Lo(f) < b.value ==> Forced(files, begin, end, Some(Lo(f)), e)
    ensures e.Some? && Hi(f) > e.value ==> Forced(files, begin, end, b, Some(Hi(f)))
  {
    forall c, g | Closure(files, begin, end, c) && g in files && (Meets(g, Some(Lo(f)), e) || Meets(g, b, Some(Hi(f)))) && !Meets(g, b, e)
      && ((Meets(g, Some(Lo(f)), e) && b.Some? && Lo(f) < b.value) || (Meets(g, b, Some(Hi(f))) && e.Some? && Hi(f) > e.value))
      ensures g in c
    {
      LoHi(g);
      LoHi(f);
      assert f in c;
      assert Overlaps(f, g);
    }
  }

  /** The range with the file just chosen in it, if that is wider. */
  method Widen(files: seq<File>, ghost begin: Option<UserKey>, ghost end: Option<UserKey>, b: Option<UserKey>, e: Option<UserKey>, f: File)
    returns (wider: bool, b': Option<UserKey>, e': Option<UserKey>)
    requires Wider(begin, end, b, e) && Forced(files, begin, end, b, e) && f in files && Meets(f, b, e)
    ensures Wider(begin, end, b', e') && Forced(files, begin, end, b', e')
    ensures wider ==> CanWiden(files, b', e') < CanWiden(files, b, e)
    ensures !wider ==> b' == b && e' == e && Within([f], b, e)
  {
    ForcedByFile(files, begin, end, b, e, f);
    wider, b', e' := false, b, e;
    if b.Some? && Lo(f) < b.value {
      WideningDecreases(files, b, e, Some(Lo(f)), e);
      wider, b' := true, Some(Lo(f));
    } else if e.Some? && Hi(f) > e.value {
      WideningDecreases(files, b, e, b, Some(Hi(f)));
      wider, e' := true, Some(Hi(f));
    }
  }

  /** Version::GetOverlappingInputs.  At level 0, where files overlap each other, the search
      restarts whenever a chosen file widens the range; it ends with the least closure. */
  method GetOverlappingInputs(files: seq<File>, level: nat, begin: Option<UserKey>, end: Option<UserKey>)
    returns (inputs: seq<File>)
    ensures level > 0 ==> inputs == Meeting(files, begin, end)
    ensures level == 0 ==> Closure(files, begin, end, FileSet(inputs))
    ensures level == 0 ==> forall c :: Closure(files, begin, end, c) ==> FileSet(inputs) <= c
    ensures Listed(files, inputs)
  {
    inputs := [];
    var b, e := begin, end;
    var i := 0;
    while i < |files|
      invariant i <= |files| && inputs == Meeting(files[..i], b, e)
      invariant Wider(begin, end, b, e)
      invariant if level == 0 then Within(inputs, b, e) && Forced(files, begin, end, b, e) else b == begin && e == end
      decreases CanWiden(files, b, e), |files| - i
    {
      var f := files[i];
      i := i + 1;
      MeetingSnoc(files, i - 1, b, e);
      if b.Some? && Hi(f) < b.value {
      } else if e.Some? && Lo(f) > e.value {
      } else {
        inputs := inputs + [f];
        if level == 0 {
          var wider;
          wider, b, e := Widen(files, begin, end, b, e, f);
          if wider {
            inputs, i := [], 0;
            MeetingNone(files, b, e);
          } else {
            WithinSnoc(inputs[..|inputs| - 1], f, b, e);
          }
        }
      }
    }
    assert files[..|files|] == files;
    IsListed(files, b, e);
    if level == 0 {
      ClosureReached(files, begin, end, b, e, inputs);
    }
  }

  /** [b, e] contains [begin, end], with the same open sides. */
  predicate Wider(begin: Option<UserKey>, end: Option<UserKey>, b: Option<UserKey>, e: Option<UserKey>) {
    && b.Some? == begin.Some? && (b.Some? ==> b.value <= begin.value)
    && e.Some? == end.Some? && (e.Some? ==> e.value >= end.value)
  }

  predicate Within(inputs: seq<File>, b: Option<UserKey>, e: Option<UserKey>) {
    forall f :: f in inputs ==> (b.None? || b.value <= Lo(f)) && (e.None? || Hi(f) <= e.value)
  }

  lemma ClosureReached(files: seq<File>, begin: Option<UserKey>, end: Option<UserKey>, b: Option<UserKey>, e: Option<UserKey>, inputs: seq<File>)
    requires Wider(begin, end, b, e) && Forced(files, begin, end, b, e)
    requires inputs == Meeting(files, b, e) && Within(inputs, b, e)
    ensures Closure(files, begin, end, FileSet(inputs))
    ensures forall c :: Closure(files, begin, end, c) ==> FileSet(inputs) <= c
  {
    forall f, g | f in inputs && g in files && Overlaps(f, g)
      ensures g in inputs
    {
      assert Meets(g, b, e);
    }
  }
}
