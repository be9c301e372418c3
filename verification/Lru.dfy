/** util/cache.cc: the chained hash table and the reference-counting LRU cache built on it.

    A `Handle` is a pointer to an LRUHandle together with the fields that never change; the id stands
    for the address.  The two circular lists are sequences, oldest entry first. */
module Lru {
  import opened Keys

  datatype Handle = Handle(id: nat, key: Bytes, hash: nat, charge: nat)

  /** What the table looks entries up by. */
  datatype Name = Name(hash: nat, key: Bytes)

  function NameOf(h: Handle): Name {
    Name(h.hash, h.key)
  }

  // Lists

  predicate Distinct(s: seq<Handle>) {
    forall i, j :: 0 <= i < j < |s| ==> s[i] != s[j]
  }

  function Charges(s: seq<Handle>): nat {
    if s == [] then 0 else s[0].charge + Charges(s[1..])
  }

  /** The list with `h` unlinked. */
  function Without(s: seq<Handle>, h: Handle): (r: seq<Handle>)
    ensures forall x :: x in r <==> x in s && x != h
    ensures Distinct(s) ==> Distinct(r)
    ensures h !in s ==> r == s
  {
    if s == [] then []
    else if s[0] == h then Without(s[1..], h)
    else
      var rest := Without(s[1..], h);
      assert Distinct(s) ==> s[0] !in s[1..];
      [s[0]] + rest
  }

  lemma {:induction false} ChargesWithout(s: seq<Handle>, h: Handle)
    requires Distinct(s) && h in s
    ensures Charges(Without(s, h)) == Charges(s) - h.charge
  {
    if s[0] != h {
      ChargesWithout(s[1..], h);
      assert ([s[0]] + Without(s[1..], h))[1..] == Without(s[1..], h);
    }
  }

  /** The others stay in their order. */
  lemma {:induction false} WithoutKeepsOrder(a: seq<Handle>, h: Handle, b: seq<Handle>)
    requires h !in a && h !in b
    ensures Without(a + [h] + b, h) == a + b
  {
    if a == [] {
      assert [] + [h] + b == [h] + b && [] + b == b;
    } else {
      WithoutKeepsOrder(a[1..], h, b);
      assert (a + [h] + b)[1..] == a[1..] + [h] + b;
      assert [a[0]] + (a[1..] + b) == a + b;
    }
  }

  lemma {:induction false} ChargesSnoc(s: seq<Handle>, h: Handle)
    ensures Charges(s + [h]) == Charges(s) + h.charge
  {
    if s != [] {
      ChargesSnoc(s[1..], h);
      assert (s + [h])[1..] == s[1..] + [h];
    }
  }

  lemma DistinctSnoc(s: seq<Handle>, h: Handle)
    requires Distinct(s) && h !in s
    ensures Distinct(s + [h])
  {
  }

  // The table

  predicate OwnBucket(bucket: seq<Handle>, i: nat, length: nat, model: map<Name, Handle>)
    requires length > 0
  {
    forall j :: 0 <= j < |bucket| ==>
      bucket[j].hash % length == i && NameOf(bucket[j]) in model && model[NameOf(bucket[j])] == bucket[j]
  }

  /** The buckets hold exactly the values of the map, each once, where its hash says. */
  ghost predicate Agrees(buckets: seq<seq<Handle>>, model: map<Name, Handle>) {
    && |buckets| > 0
    && (forall i :: 0 <= i < |buckets| ==> Distinct(buckets[i]) && OwnBucket(buckets[i], i, |buckets|, model))
    && (forall n :: n in model ==> NameOf(model[n]) == n && model[n] in buckets[n.hash % |buckets|])
  }

  lemma PushAgrees(buckets: seq<seq<Handle>>, model: map<Name, Handle>, h: Handle)
    requires Agrees(buckets, model) && NameOf(h) !in model
    ensures var i := h.hash % |buckets|; Agrees(buckets[i := [h] + buckets[i]], model[NameOf(h) := h])
  {
    var i := h.hash % |buckets|;
    assert h !in buckets[i];
  }

  class HandleTable {
    var elems: nat
    var list: seq<seq<Handle>>
    ghost var model: map<Name, Handle>

    ghost predicate Valid()
      reads this
    {
      Agrees(list, model) && elems == |model| <= |list|
    }

    constructor ()
      ensures Valid() && model == map[]
    {
      elems, list, model := 0, [[], [], [], []], map[];
    }

    /** The place in its bucket of the entry with this key and hash, or else the bucket's end. */
    method FindPointer(key: Bytes, hash: nat) returns (p: nat)
      requires Valid()
      ensures p <= |list[hash % |list|]|
      ensures p < |list[hash % |list|]| <==> Name(hash, key) in model
      ensures Name(hash, key) in model ==> list[hash % |list|][p] == model[Name(hash, key)]
    {
      var bucket := list[hash % |list|];
      p := 0;
      while p < |bucket| && (bucket[p].hash != hash || bucket[p].key != key)
        invariant p <= |bucket|
        invariant forall j :: 0 <= j < p ==> NameOf(bucket[j]) != Name(hash, key)
      {
        p := p + 1;
      }
    }

    method Lookup(key: Bytes, hash: nat) returns (e: Option<Handle>)
      requires Valid()
      ensures e == if Name(hash, key) in model then Some(model[Name(hash, key)]) else None
    {
      var p := FindPointer(key, hash);
      e := if p < |list[hash % |list|]| then Some(list[hash % |list|][p]) else None;
    }

    /** Puts `h` in the place of the entry of the same name, which it returns. */
    method Insert(h: Handle) returns (old_: Option<Handle>)
      requires Valid()
      modifies this
      ensures Valid() && model == old(model)[NameOf(h) := h]
      ensures old_ == if NameOf(h) in old(model) then Some(old(model)[NameOf(h)]) else None
    {
      var b := h.hash % |list|;
      var p := FindPointer(h.key, h.hash);
      if p < |list[b]| {
        old_ := Some(list[b][p]);
        ReplaceAgrees(list, model, h, p);
        list := list[b := list[b][p := h]];
        model := model[NameOf(h) := h];
      } else {
        old_ := None;
        AppendAgrees(list, model, h);
        list := list[b := list[b] + [h]];
        model := model[NameOf(h) := h];
        elems := elems + 1;
        if elems > |list| {
          Resize();
        }
      }
    }

    method Remove(key: Bytes, hash: nat) returns (e: Option<Handle>)
      requires Valid()
      modifies this
      ensures Valid() && model == old(model) - {Name(hash, key)}
      ensures e == if Name(hash, key) in old(model) then Some(old(model)[Name(hash, key)]) else None
    {
      var b := hash % |list|;
      var p := FindPointer(key, hash);
      e := None;
      if p < |list[b]| {
        e := Some(list[b][p]);
        RemoveAgrees(list, model, b, p);
        list := list[b := list[b][..p] + list[b][p + 1..]];
        elems := elems - 1;
        model := model - {Name(hash, key)};
      } else {
        assert model - {Name(hash, key)} == model;
      }
    }

    /** Doubles the number of buckets until there is one for each entry, and moves every entry. */
    method Resize()
      requires Agrees(list, model) && elems == |model|
      modifies this
      ensures Valid() && model == old(model) && elems == old(elems)
    {
      var newLength := 4;
      while newLength < elems
        invariant newLength >= 4
      {
        newLength := newLength * 2;
      }
      var newList: seq<seq<Handle>> := seq(newLength, _ => []);
      ghost var moved: map<Name, Handle> := map[];
      var count, i := 0, 0;
      while i < |list|
        invariant i <= |list| && |newList| == newLength && list == old(list) && model == old(model) && elems == old(elems)
        invariant Agrees(newList, moved) && count == |moved|
        invariant MovedUpTo(list, model, i, moved)
      {
        BucketStarts(list, model, i, moved);
        var more;
        newList, more, moved := MoveChain(list, model, i, newList, moved);
        count := count + more;
        i := i + 1;
      }
      assert moved == model;
      assert count == elems;
      list := newList;
    }
  }

  /** The inner loop of Resize: each entry of a chain goes to the front of its new bucket. */
  method MoveChain(list: seq<seq<Handle>>, ghost model: map<Name, Handle>, i: nat, before: seq<seq<Handle>>, ghost done: map<Name, Handle>)
    returns (newList: seq<seq<Handle>>, count: nat, ghost moved: map<Name, Handle>)
    requires Agrees(list, model) && i < |list| && Agrees(before, done) && MovedInto(list, model, i, list[i], done)
    ensures |newList| == |before| && Agrees(newList, moved) && |moved| == |done| + count
    ensures MovedUpTo(list, model, i + 1, moved)
  {
    newList, count, moved := before, 0, done;
    var chain := list[i];
    while chain != []
      invariant |newList| == |before| && Agrees(newList, moved) && |moved| == |done| + count
      invariant Within(list, i, chain) && MovedInto(list, model, i, chain, moved)
      decreases |chain|
    {
      var h := chain[0];
      NextMoves(list, model, i, chain, moved);
      PushAgrees(newList, moved, h);
      var b := h.hash % |newList|;
      newList := newList[b := [h] + newList[b]];
      moved := moved[NameOf(h) := h];
      chain := chain[1..];
      count := count + 1;
    }
  }

  lemma BucketStarts(list: seq<seq<Handle>>, model: map<Name, Handle>, i: nat, moved: map<Name, Handle>)
    requires Agrees(list, model) && i < |list| && MovedUpTo(list, model, i, moved)
    ensures MovedInto(list, model, i, list[i], moved)
  {
  }

  ghost predicate MovedUpTo(list: seq<seq<Handle>>, model: map<Name, Handle>, i: nat, moved: map<Name, Handle>)
    requires |list| > 0
  {
    && (forall n :: n in moved ==> n in model && moved[n] == model[n])
    && (forall n :: n in model ==> (n in moved <==> n.hash % |list| < i))
  }

  ghost predicate MovedInto(list: seq<seq<Handle>>, model: map<Name, Handle>, i: nat, chain: seq<Handle>, moved: map<Name, Handle>)
    requires |list| > 0
  {
    && (forall n :: n in moved ==> n in model && moved[n] == model[n])
    && (forall n :: n in model ==> (n in moved <==> n.hash % |list| < i || (n.hash % |list| == i && model[n] !in chain)))
  }

  /** The chain is what is left of bucket `i`. */
  predicate Within(list: seq<seq<Handle>>, i: nat, chain: seq<Handle>) {
    i < |list| && |chain| <= |list[i]| && chain == list[i][|list[i]| - |chain|..]
  }

  lemma NextMoves(list: seq<seq<Handle>>, model: map<Name, Handle>, i: nat, chain: seq<Handle>, moved: map<Name, Handle>)
    requires Agrees(list, model) && Within(list, i, chain) && chain != [] && MovedInto(list, model, i, chain, moved)
    ensures NameOf(chain[0]) in model && model[NameOf(chain[0])] == chain[0] && NameOf(chain[0]) !in moved
    ensures Within(list, i, chain[1..])
    ensures MovedInto(list, model, i, chain[1..], moved[NameOf(chain[0]) := chain[0]])
  {
    var p := |list[i]| - |chain|;
    assert chain[0] == list[i][p];
    forall n | n in model && n.hash % |list| == i ensures model[n] in chain[1..] <==> model[n] in chain && model[n] != chain[0] {
      assert forall j :: 0 < j < |chain| ==> chain[j] == list[i][p + j];
    }
  }

  lemma StillThere(list: seq<seq<Handle>>, model: map<Name, Handle>, h: Handle, p: nat, n: Name)
    requires Agrees(list, model) && (n in model || n == NameOf(h))
    requires p < |list[h.hash % |list|]| && NameOf(h) in model && list[h.hash % |list|][p] == model[NameOf(h)]
    ensures var b := h.hash % |list|;
            var m := if n == NameOf(h) then h else model[n];
            NameOf(m) == n && m in list[b := list[b][p := h]][n.hash % |list|]
  {
    var b := h.hash % |list|;
    if n == NameOf(h) {
      assert list[b][p := h][p] == h;
    } else {
      var j :| 0 <= j < |list[n.hash % |list|]| && list[n.hash % |list|][j] == model[n];
      assert list[b := list[b][p := h]][n.hash % |list|][j] == model[n];
    }
  }

  lemma ReplaceAgrees(list: seq<seq<Handle>>, model: map<Name, Handle>, h: Handle, p: nat)
    requires Agrees(list, model) && NameOf(h) in model
    requires p < |list[h.hash % |list|]| && list[h.hash % |list|][p] == model[NameOf(h)]
    ensures var b := h.hash % |list|; Agrees(list[b := list[b][p := h]], model[NameOf(h) := h])
  {
    var b := h.hash % |list|;
    var chain, model' := list[b][p := h], model[NameOf(h) := h];
    var list' := list[b := chain];
    forall j | 0 <= j < |chain| && j != p ensures NameOf(chain[j]) != NameOf(h) {
      assert chain[j] == list[b][j];
    }
    forall i | 0 <= i < |list'| ensures Distinct(list'[i]) && OwnBucket(list'[i], i, |list'|, model') {
      assert OwnBucket(list[i], i, |list|, model);
    }
    forall n | n in model' ensures NameOf(model'[n]) == n && model'[n] in list'[n.hash % |list'|] {
      StillThere(list, model, h, p, n);
    }
  }

  lemma AppendAgrees(list: seq<seq<Handle>>, model: map<Name, Handle>, h: Handle)
    requires Agrees(list, model) && NameOf(h) !in model
    ensures var b := h.hash % |list|; Agrees(list[b := list[b] + [h]], model[NameOf(h) := h])
  {
    assert h !in list[h.hash % |list|];
  }

  lemma RemoveAgrees(list: seq<seq<Handle>>, model: map<Name, Handle>, b: nat, p: nat)
    requires Agrees(list, model) && b < |list| && p < |list[b]|
    ensures Agrees(list[b := list[b][..p] + list[b][p + 1..]], model - {NameOf(list[b][p])})
    ensures NameOf(list[b][p]) in model && |model - {NameOf(list[b][p])}| == |model| - 1
  {
    var h := list[b][p];
    var chain, model' := list[b][..p] + list[b][p + 1..], model - {NameOf(h)};
    var list' := list[b := chain];
    assert OwnBucket(list[b], b, |list|, model);
    assert model'.Keys == model.Keys - {NameOf(h)};
    CutOut(list[b], p);
    forall i | 0 <= i < |list'| ensures Distinct(list'[i]) && OwnBucket(list'[i], i, |list'|, model') {
      assert OwnBucket(list[i], i, |list|, model);
      forall j | 0 <= j < |list'[i]| ensures NameOf(list'[i][j]) in model' && list'[i][j].hash % |list'| == i {
        var x := list'[i][j];
        assert x in list[i] && x != h;
        assert model[NameOf(x)] == x;
      }
    }
    forall n | n in model' ensures NameOf(model'[n]) == n && model'[n] in list'[n.hash % |list'|] {
      assert model[n] in list[n.hash % |list|] && model[n] != h;
    }
  }

  lemma CutOut(s: seq<Handle>, p: nat)
    requires Distinct(s) && p < |s|
    ensures Distinct(s[..p] + s[p + 1..]) && forall x :: x in s[..p] + s[p + 1..] <==> x in s && x != s[p]
  {
    var r := s[..p] + s[p + 1..];
    assert forall j :: 0 <= j < |r| ==> r[j] == s[if j < p then j else j + 1];
    forall x | x in s && x != s[p] ensures x in r {
      var j :| 0 <= j < |s| && s[j] == x;
      assert r[if j < p then j else j - 1] == x;
    }
  }
}
