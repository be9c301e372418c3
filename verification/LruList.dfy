/** util/cache.cc: the circular lists of the cache, pointer by pointer. */
module LruLists {

  /** The list pointers of an LRUHandle; a list is a dummy and the entries it leads round to. */
  class Link {
    var next: Link?
    var prev: Link?

    constructor ()
      ensures next == null && prev == null
    {
      next, prev := null, null;
    }
  }

  /** The place `k` of a ring: the dummy, the entries from the oldest on, and the dummy again. */
  function At(list: Link, items: seq<Link>, k: int): Link {
    if 0 < k <= |items| then items[k - 1] else list
  }

  ghost predicate Members(list: Link, items: seq<Link>) {
    list !in items && forall i, j :: 0 <= i < j < |items| ==> items[i] != items[j]
  }

  /** The pointers lead round exactly these entries, forward and backward. */
  ghost predicate Ring(list: Link, items: seq<Link>)
    reads list, items
  {
    && Members(list, items)
    && (forall k :: 0 <= k <= |items| ==> At(list, items, k).next == At(list, items, k + 1))
    && (forall k :: 0 <= k <= |items| ==> At(list, items, k + 1).prev == At(list, items, k))
  }

  /** An empty list is a dummy that points to itself. */
  method Empty(list: Link)
    modifies list
    ensures Ring(list, [])
  {
    list.next, list.prev := list, list;
  }

  /** The next of the dummy is the oldest entry, or the dummy if there is none. */
  lemma Oldest(list: Link, items: seq<Link>)
    requires Ring(list, items)
    ensures list.next == if items == [] then list else items[0]
    ensures list.next == list <==> items == []
  {
    assert At(list, items, 0).next == At(list, items, 1);
  }

  /** LRU_Append: the new entry is the newest, just before the dummy. */
  method Append(list: Link, e: Link, ghost items: seq<Link>)
    requires Ring(list, items) && e != list && e !in items
    modifies list, e, items
    ensures Ring(list, items + [e])
  {
    assert At(list, items, |items|).next == At(list, items, |items| + 1);
    assert At(list, items, |items| + 1).prev == At(list, items, |items|);
    e.next := list;
    e.prev := list.prev;
    e.prev.next := e;
    e.next.prev := e;
    ghost var after := items + [e];
    forall k | 0 <= k <= |after|
      ensures At(list, after, k).next == At(list, after, k + 1) && At(list, after, k + 1).prev == At(list, after, k)
    {
      if k < |items| {
        Elsewhere(list, items, k, |items|);
        assert At(list, items, k).next == At(list, items, k + 1) && At(list, items, k + 1).prev == At(list, items, k);
      }
    }
  }

  lemma Elsewhere(list: Link, items: seq<Link>, k: nat, l: nat)
    requires Members(list, items) && k < l <= |items|
    ensures At(list, items, k) != At(list, items, l)
    ensures l < |items| ==> At(list, items, k) != At(list, items, l + 1) || k == 0
  {
  }

  function Unlinked(items: seq<Link>, i: nat): seq<Link>
    requires i < |items|
  {
    items[..i] + items[i + 1..]
  }

  /** LRU_Remove: the entry at place `i` is taken out; its own pointers stay as they are. */
  method Remove(ghost list: Link, e: Link, ghost items: seq<Link>, ghost i: nat)
    requires Ring(list, items) && i < |items| && items[i] == e
    modifies list, items
    ensures Ring(list, Unlinked(items, i)) && e.next == old(e.next) && e.prev == old(e.prev)
  {
    assert At(list, items, i + 1) == e;
    assert e.next == At(list, items, i + 2) && e.prev == At(list, items, i);
    e.next.prev := e.prev;
    e.prev.next := e.next;
    ghost var after := Unlinked(items, i);
    forall k | 0 <= k <= |after|
      ensures At(list, after, k).next == At(list, after, k + 1) && At(list, after, k + 1).prev == At(list, after, k)
    {
      if k < i {
        assert At(list, items, k).next == At(list, items, k + 1) && At(list, items, k + 1).prev == At(list, items, k);
      } else if k > i {
        assert At(list, items, k + 1).next == At(list, items, k + 2) && At(list, items, k + 2).prev == At(list, items, k + 1);
      }
    }
  }

  /** Ref, and Unref with the lists exchanged: from one list to the newest end of the other. */
  method Move(ghost a: Link, ghost aItems: seq<Link>, ghost i: nat, b: Link, ghost bItems: seq<Link>, e: Link)
    requires Ring(a, aItems) && i < |aItems| && aItems[i] == e && Ring(b, bItems)
    requires a != b && a !in bItems && b !in aItems && (forall x :: x in aItems ==> x !in bItems)
    modifies a, aItems, b, bItems
    ensures Ring(a, Unlinked(aItems, i)) && Ring(b, bItems + [e])
  {
    OnlyMembers(b, bItems);
    OnlyMembers(a, Unlinked(aItems, i));
    UnlinkedMembers(a, aItems, i);
    Remove(a, e, aItems, i);
    Append(b, e, bItems);
  }

  lemma UnlinkedMembers(list: Link, items: seq<Link>, i: nat)
    requires Members(list, items) && i < |items|
    ensures forall x :: x in Unlinked(items, i) <==> x in items && x != items[i]
  {
    forall x | x in items && x != items[i]
      ensures x in Unlinked(items, i)
    {
      var k :| 0 <= k < |items| && items[k] == x;
      assert Unlinked(items, i)[if k < i then k else k - 1] == x;
    }
  }

  lemma OnlyMembers(list: Link, items: seq<Link>)
    ensures forall k :: At(list, items, k) == list || At(list, items, k) in items
  {
  }
}
