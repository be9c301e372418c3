/** MergingIterator: several sorted children seen as one sorted sequence, in both directions. */
module Merger {
  import opened Keys

  /** Where a child lands on Seek: its first entry at or after the target. */
  function LowerBound(es: seq<Entry>, target: IKey): (r: nat)
    requires Sorted(es)
    ensures r <= |es|
    ensures forall k :: 0 <= k < |es| ==> (k < r <==> Before(KeyOf(es[k]), target))
  {
    if es == [] || !Before(KeyOf(es[0]), target) then 0 else 1 + LowerBound(es[1..], target)
  }

  /** A child that steps back from its first entry becomes invalid. */
  function StepBack(es: seq<Entry>, pos: nat): nat {
    if pos == 0 then |es| else pos - 1
  }

  function LastPos(es: seq<Entry>): nat {
    if |es| == 0 then 0 else |es| - 1
  }

  /** The index of an entry in the merged sequence. */
  ghost function Place(all: seq<Entry>, e: Entry): (r: nat)
    requires e in all
    ensures r < |all| && all[r] == e
  {
    var r :| 0 <= r < |all| && all[r] == e;
    r
  }

  lemma PlaceOrder(all: seq<Entry>, a: Entry, b: Entry)
    requires Sorted(all) && a in all && b in all
    ensures Place(all, a) < Place(all, b) <==> Before(KeyOf(a), KeyOf(b))
    ensures Place(all, a) == Place(all, b) <==> a == b
  {
  }

  ghost predicate Within(all: seq<Entry>, es: seq<Entry>) {
    Sorted(es) && forall e :: e in es ==> e in all
  }

  /** The child stands at its first entry of rank `m` or more. */
  ghost predicate AheadAt(all: seq<Entry>, es: seq<Entry>, pos: nat, m: int)
    requires Within(all, es)
  {
    && pos <= |es|
    && forall k :: 0 <= k < |es| ==> (k < pos <==> Place(all, es[k]) < m)
  }

  /** The child stands at its last entry of rank `m` or less, or nowhere if it has none. */
  ghost predicate BackAt(all: seq<Entry>, es: seq<Entry>, pos: nat, m: int)
    requires Within(all, es)
  {
    && pos <= |es|
    && (pos < |es| ==> forall k :: 0 <= k < |es| ==> (k <= pos <==> Place(all, es[k]) <= m))
    && (pos == |es| ==> forall k :: 0 <= k < |es| ==> Place(all, es[k]) > m)
  }

  datatype Direction = Forward | Reverse

  class MergingIterator {
    const items: seq<seq<Entry>>
    var pos: seq<nat>
    var current: Option<nat>
    var direction: Direction

    /** The sorted union of the children, and the place in it; |all| when not valid. */
    ghost const all: seq<Entry>
    ghost var at: nat

    /** Children are sorted and no entry is in two of them. */
    ghost predicate Merges() {
      && Sorted(all)
      && (forall i :: 0 <= i < |items| ==> Within(all, items[i]))
      && (forall e :: e in all ==> exists i :: 0 <= i < |items| && e in items[i])
      && (forall i, j, e :: 0 <= i < |items| && 0 <= j < |items| && e in items[i] && e in items[j] ==> i == j)
    }

    ghost predicate Valid()
      reads this
    {
      && Merges() && |pos| == |items| && at <= |all| && (current.None? <==> at == |all|)
      && (current.Some? ==>
            && current.value < |items| && pos[current.value] < |items[current.value]|
            && items[current.value][pos[current.value]] == all[at]
            && (direction == Forward ==> forall i :: 0 <= i < |items| ==> AheadAt(all, items[i], pos[i], at))
            && (direction == Reverse ==> forall i :: 0 <= i < |items| ==> BackAt(all, items[i], pos[i], at)))
    }

    constructor (items: seq<seq<Entry>>, ghost all: seq<Entry>)
      requires Sorted(all)
      requires forall i :: 0 <= i < |items| ==> Within(all, items[i])
      requires forall e :: e in all ==> exists i :: 0 <= i < |items| && e in items[i]
      requires forall i, j, e :: 0 <= i < |items| && 0 <= j < |items| && e in items[i] && e in items[j] ==> i == j
      ensures Valid() && this.items == items && this.all == all && at == |all|
    {
      this.items, this.all := items, all;
      pos := seq(|items|, i requires 0 <= i < |items| => |items[i]|);
      current, direction := None, Forward;
      at := |all|;
    }

    function Entry(): (e: Entry)
      requires Valid() && current.Some?
      reads this
      ensures e == all[at]
    {
      items[current.value][pos[current.value]]
    }

    predicate IsValid()
      reads this
    {
      current.Some?
    }

    method FindSmallest(ghost m: nat)
      requires direction == Forward && Merges() && |pos| == |items| && m <= |all|
      requires forall i :: 0 <= i < |items| ==> AheadAt(all, items[i], pos[i], m)
      modifies this`current, this`at
      ensures Valid() && at == m
    {
      current := None;
      for i := 0 to |items|
        invariant current.Some? ==> current.value < i && pos[current.value] < |items[current.value]|
        invariant forall j :: 0 <= j < i && pos[j] < |items[j]| ==>
                    current.Some? && !Before(KeyOf(items[j][pos[j]]), KeyOf(items[current.value][pos[current.value]]))
      {
        if pos[i] < |items[i]| {
          if current.None? || Before(KeyOf(items[i][pos[i]]), KeyOf(items[current.value][pos[current.value]])) {
            current := Some(i);
          }
        }
      }
      at := m;
      if m < |all| {
        assert all[m] in all;
        ghost var i :| 0 <= i < |items| && all[m] in items[i];
        ghost var k :| 0 <= k < |items[i]| && items[i][k] == all[m];
        PlaceOrder(all, all[m], items[i][k]);
        AheadHolds(items[i], pos[i], m, k);
        assert AheadAt(all, items[current.value], pos[current.value], m);
        PlaceOrder(all, items[current.value][pos[current.value]], all[m]);
        PlaceOf(m);
      }
    }

    lemma PlaceOf(m: nat)
      requires Sorted(all) && m < |all|
      ensures Place(all, all[m]) == m
    {
    }

    /** The child that holds the entry of rank `m` stands at it. */
    lemma AheadHolds(es: seq<Entry>, p: nat, m: nat, k: nat)
      requires Sorted(all) && Within(all, es) && AheadAt(all, es, p, m)
      requires m < |all| && k < |es| && es[k] == all[m]
      ensures p == k
    {
      PlaceOf(m);
      assert p <= k;
      if p < k {
        assert Before(KeyOf(es[p]), KeyOf(es[k]));
        PlaceOrder(all, es[p], es[k]);
      }
    }
  
    method FindLargest(ghost m: int)
      requires direction == Reverse && Merges() && |pos| == |items| && -1 <= m < |all|
      requires forall i :: 0 <= i < |items| ==> BackAt(all, items[i], pos[i], m)
      modifies this`current, this`at
      ensures Valid() && at == if m < 0 then |all| else m
    {
      current := None;
      for i := |items| downto 0
        invariant current.Some? ==> i <= current.value < |items| && pos[current.value] < |items[current.value]|
        invariant forall j :: i <= j < |items| && pos[j] < |items[j]| ==>
                    current.Some? && !Before(KeyOf(items[current.value][pos[current.value]]), KeyOf(items[j][pos[j]]))
      {
        if pos[i] < |items[i]| {
          if current.None? || Before(KeyOf(items[current.value][pos[current.value]]), KeyOf(items[i][pos[i]])) {
            current := Some(i);
          }
        }
      }
      at := if m < 0 then |all| else m;
      if m >= 0 {
        assert all[m] in all;
        ghost var i :| 0 <= i < |items| && all[m] in items[i];
        ghost var k :| 0 <= k < |items[i]| && items[i][k] == all[m];
        BackHolds(items[i], pos[i], m, k);
        assert BackAt(all, items[current.value], pos[current.value], m);
        PlaceOrder(all, items[current.value][pos[current.value]], all[m]);
        PlaceOf(m);
      }
    }

    lemma BackHolds(es: seq<Entry>, p: nat, m: nat, k: nat)
      requires Sorted(all) && Within(all, es) && BackAt(all, es, p, m)
      requires m < |all| && k < |es| && es[k] == all[m]
      ensures p == k
    {
      PlaceOf(m);
      assert p < |es| && k <= p;
      if k < p {
        assert Before(KeyOf(es[k]), KeyOf(es[p]));
        PlaceOrder(all, es[k], es[p]);
      }
    }

    method SeekToFirst()
      requires Valid()
      modifies this
      ensures Valid() && at == 0 && direction == Forward
    {
      pos := seq(|items|, _ => 0);
      direction := Forward;
      FindSmallest(0);
    }

    method SeekToLast()
      requires Valid()
      modifies this
      ensures Valid() && at == LastPos(all)
      ensures current.Some? ==> direction == Reverse
    {
      pos := seq(|items|, i requires 0 <= i < |items| => LastPos(items[i]));
      direction := Reverse;
      FindLargest(|all| - 1);
    }

    /** Seek lands on the first entry of all children at or after the target. */
    method Seek(target: IKey)
      requires Valid()
      modifies this
      ensures Valid() && at == LowerBound(all, target)
    {
      pos := seq(|items|, i requires 0 <= i < |items| => LowerBound(items[i], target));
      direction := Forward;
      ghost var m := LowerBound(all, target);
      forall i | 0 <= i < |items|
        ensures AheadAt(all, items[i], pos[i], m)
      {
        forall k | 0 <= k < |items[i]|
          ensures k < pos[i] <==> Place(all, items[i][k]) < m
        {
          assert items[i][k] in all;
        }
      }
      FindSmallest(m);
    }

    method Next()
      requires Valid() && current.Some?
      modifies this
      ensures Valid() && at == old(at) + 1
      ensures current.Some? ==> direction == Forward
    {
      var c := current.value;
      HolderSteps(all, items[c], pos[c], at);
      assert all[at] in items[c];
      if direction != Forward {
        var key := KeyOf(Entry());
        ghost var stood := pos[c];
        for i := 0 to |items|
          invariant |pos| == |items| && pos[c] == stood && at == old(at)
          invariant forall j :: 0 <= j < i ==> AheadAt(all, items[j], pos[j], if j == c then at else at + 1)
        {
          if i != c {
            var p := LowerBound(items[i], key);
            pos := pos[i := if p < |items[i]| && KeyOf(items[i][p]) == key then p + 1 else p];
            SeekOther(i, c, at);
          }
        }
        direction := Forward;
      } else {
        forall i | 0 <= i < |items| && i != c
          ensures AheadAt(all, items[i], pos[i], at + 1)
        {
          OthersSkip(i, c, pos[i], at);
        }
      }
      pos := pos[c := pos[c] + 1];
      FindSmallest(at + 1);
    }

    method Prev()
      requires Valid() && current.Some?
      modifies this
      ensures Valid() && at == if old(at) == 0 then |all| else old(at) - 1
      ensures current.Some? ==> direction == Reverse
    {
      var c := current.value;
      HolderSteps(all, items[c], pos[c], at);
      assert all[at] in items[c];
      if direction != Reverse {
        var key := KeyOf(Entry());
        ghost var stood := pos[c];
        for i := 0 to |items|
          invariant |pos| == |items| && pos[c] == stood && at == old(at)
          invariant forall j :: 0 <= j < i && j != c ==> BackAt(all, items[j], pos[j], at - 1)
        {
          if i != c {
            var p := LowerBound(items[i], key);
            pos := pos[i := if p < |items[i]| then StepBack(items[i], p) else LastPos(items[i])];
            SeekOther(i, c, at);
          }
        }
        direction := Reverse;
      } else {
        forall i | 0 <= i < |items| && i != c
          ensures BackAt(all, items[i], pos[i], at - 1)
        {
          OthersSkip(i, c, pos[i], at);
        }
      }
      pos := pos[c := StepBack(items[c], pos[c])];
      FindLargest(at - 1);
    }

    /** Repositioning another child by Seek(key()), as both direction switches do. */
    lemma SeekOther(i: nat, c: nat, m: nat)
      requires Merges() && i < |items| && c < |items| && i != c && m < |all| && all[m] in items[c]
      ensures var es, key := items[i], KeyOf(all[m]);
              var p := LowerBound(es, key);
              && (p < |es| ==> KeyOf(es[p]) != key)
              && AheadAt(all, es, p, m + 1)
              && BackAt(all, es, if p < |es| then StepBack(es, p) else LastPos(es), m - 1)
    {
      var es, key := items[i], KeyOf(all[m]);
      var p := LowerBound(es, key);
      PlaceOf(m);
      forall k | 0 <= k < |es|
        ensures es[k] != all[m] && (k < p <==> Place(all, es[k]) < m) && KeyOf(es[k]) != key
      {
        assert es[k] in es && all[m] in all;
        PlaceOrder(all, es[k], all[m]);
        PlaceOrder(all, all[m], es[k]);
      }
    }

    lemma OthersSkip(i: nat, c: nat, p: nat, m: nat)
      requires Merges() && i < |items| && c < |items| && i != c && m < |all| && all[m] in items[c]
      ensures AheadAt(all, items[i], p, m) ==> AheadAt(all, items[i], p, m + 1)
      ensures BackAt(all, items[i], p, m) ==> BackAt(all, items[i], p, m - 1)
    {
      PlaceOf(m);
      forall k | 0 <= k < |items[i]|
        ensures Place(all, items[i][k]) != m
      {
        assert items[i][k] in items[i];
        PlaceOrder(all, items[i][k], all[m]);
      }
    }
  }

  /** The child that stands at the current entry, before and after it steps. */
  lemma HolderSteps(all: seq<Entry>, es: seq<Entry>, p: nat, m: nat)
    requires Sorted(all) && Within(all, es) && p < |es| && m < |all| && es[p] == all[m]
    ensures AheadAt(all, es, p, m) && AheadAt(all, es, p + 1, m + 1)
    ensures BackAt(all, es, p, m) && BackAt(all, es, StepBack(es, p), m - 1)
  {
    forall k | 0 <= k < |es|
      ensures k < p <==> Place(all, es[k]) < m
      ensures k == p <==> Place(all, es[k]) == m
    {
      PlaceOrder(all, es[k], es[p]);
      PlaceOrder(all, es[p], es[k]);
      assert Sorted(es);
    }
  }

  /** Moving from the first entry until the iterator becomes invalid visits the sorted union. */
  method Drain(m: MergingIterator) returns (seen: seq<Entry>)
    requires m.Valid()
    modifies m
    ensures m.Valid() && seen == m.all
  {
    m.SeekToFirst();
    seen := [];
    while m.IsValid()
      invariant m.Valid() && seen == m.all[..m.at]
      decreases |m.all| - m.at
    {
      seen := seen + [m.Entry()];
      m.Next();
    }
  }
}
