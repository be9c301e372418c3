/** util/cache.cc: the LRU cache.  An entry's reference count is the handles clients hold on it plus
    one while it is cached; the entry is handed to its deleter when the count reaches zero. */
module LruCaches {
  import opened Keys
  import opened Lru

  /** The mutable state other than the table.  `refs` has the entries still allocated, `deleted`
      those given to their deleters, in order. */
  datatype Books = Books(
    lru: seq<Handle>, inUse: seq<Handle>, refs: map<Handle, nat>, cached: set<Handle>, usage: int, deleted: seq<Handle>)

  /** The books are right for the handles clients hold. */
  ghost predicate Booked(b: Books, clients: multiset<Handle>) {
    && (forall h :: h in b.refs <==> clients[h] > 0 || h in b.cached)
    && (forall h :: h in b.refs ==> b.refs[h] == clients[h] + if h in b.cached then 1 else 0)
    && Distinct(b.lru) && Distinct(b.inUse) && Distinct(b.deleted)
    && (forall h :: h in b.lru <==> h in b.cached && clients[h] == 0)
    && (forall h :: h in b.inUse <==> h in b.cached && clients[h] > 0)
    && b.usage == Charges(b.lru) + Charges(b.inUse)
    && (forall h :: h in b.deleted ==> h !in b.refs)
  }

  /** The books that are right for the handles clients hold. */
  ghost function BooksFor(clients: multiset<Handle>): iset<Books> {
    iset b | Booked(b, clients)
  }

  /** The cached entries are the values of the table. */
  ghost predicate Tabled(cached: set<Handle>, model: map<Name, Handle>) {
    && (forall h :: h in cached ==> NameOf(h) in model && model[NameOf(h)] == h)
    && (forall n :: n in model ==> NameOf(model[n]) == n && model[n] in cached)
  }

  function RefOf(b: Books, e: Handle): Books
    requires e in b.refs
  {
    var moved := if b.refs[e] == 1 && e in b.cached then b.(lru := Without(b.lru, e), inUse := b.inUse + [e]) else b;
    moved.(refs := b.refs[e := b.refs[e] + 1])
  }

  function UnrefOf(b: Books, e: Handle): Books
    requires e in b.refs && b.refs[e] > 0
  {
    var n := b.refs[e] - 1;
    if n == 0 then b.(refs := b.refs - {e}, deleted := b.deleted + [e])
    else
      var counted := b.(refs := b.refs[e := n]);
      if e in b.cached && n == 1 then counted.(inUse := Without(b.inUse, e), lru := b.lru + [e]) else counted
  }

  /** LRU_Remove, in_cache and usage_, before FinishErase drops the cache's reference. */
  function DetachOf(b: Books, e: Handle): Books {
    b.(lru := Without(b.lru, e), inUse := Without(b.inUse, e), cached := b.cached - {e}, usage := b.usage - e.charge)
  }

  lemma RefKeeps(b: Books, clients: multiset<Handle>, e: Handle)
    requires Booked(b, clients) && e in b.refs
    ensures Booked(RefOf(b, e), clients + multiset{e})
  {
    if b.refs[e] == 1 && e in b.cached {
      ChargesWithout(b.lru, e);
      ChargesSnoc(b.inUse, e);
      DistinctSnoc(b.inUse, e);
    }
  }

  lemma UnrefKeeps(b: Books, clients: multiset<Handle>, e: Handle)
    requires Booked(b, clients) && e in clients
    ensures e in b.refs && b.refs[e] > 0 && Booked(UnrefOf(b, e), clients - multiset{e})
  {
    var n := b.refs[e] - 1;
    if n == 0 {
      DistinctSnoc(b.deleted, e);
    } else if e in b.cached && n == 1 {
      ChargesWithout(b.inUse, e);
      ChargesSnoc(b.lru, e);
      DistinctSnoc(b.lru, e);
    }
  }

  /** The cache's own reference becomes one more for FinishErase to give up. */
  lemma DetachKeeps(b: Books, clients: multiset<Handle>, e: Handle)
    requires Booked(b, clients) && e in b.cached
    ensures Booked(DetachOf(b, e), clients + multiset{e})
  {
    if e in b.lru {
      ChargesWithout(b.lru, e);
    } else {
      ChargesWithout(b.inUse, e);
    }
  }

  /** A new entry, held by the caller and by the cache. */
  lemma AddKeeps(b: Books, clients: multiset<Handle>, e: Handle)
    requires Booked(b, clients) && e !in b.refs && e !in b.deleted
    ensures Booked(b.(refs := b.refs[e := 2], cached := b.cached + {e}, inUse := b.inUse + [e], usage := b.usage + e.charge),
                   clients + multiset{e})
    ensures Booked(b.(refs := b.refs[e := 1]), clients + multiset{e})
  {
    assert e !in clients && e !in b.cached;
    ChargesSnoc(b.inUse, e);
    DistinctSnoc(b.inUse, e);
  }

  /** The table without the entries of a list. */
  ghost function Minus(model: map<Name, Handle>, gone: seq<Handle>): map<Name, Handle> {
    map n | n in model && model[n] !in gone :: model[n]
  }

  /** The cache between operations; `clients` are the handles given out and not released, and
      `created` every entry there has ever been. */
  datatype Whole = Whole(
    books: Books, model: map<Name, Handle>, clients: multiset<Handle>, created: set<Handle>, capacity: nat, nextId: nat)

  ghost predicate Sound(w: Whole) {
    && Booked(w.books, w.clients) && Tabled(w.books.cached, w.model)
    && (forall h :: h in w.created <==> h in w.books.refs || h in w.books.deleted)
    && forall h :: h in w.created ==> h.id < w.nextId
  }

  /** The entry of a name taken out of table and cache. */
  ghost predicate Dropped(a: Whole, n: Name, b: Whole) {
    && b == a.(books := b.books, model := a.model - {n})
    && (n !in a.model ==> b.books == a.books)
    && (n in a.model ==>
          var e := a.model[n];
          e in a.books.refs && a.books.refs[e] > 0 && b.books == EraseOf(a.books, e))
  }

  /** The oldest unused entry evicted. */
  ghost predicate EvictedOne(a: Whole, b: Whole)
    requires a.books.lru != []
  {
    var e := a.books.lru[0];
    && b == a.(books := b.books, model := Minus(a.model, [e]))
    && b.books.lru == a.books.lru[1..] && b.books.inUse == a.books.inUse
    && b.books.deleted == a.books.deleted + [e] && b.books.usage == a.books.usage - e.charge
  }

  /** The `n` oldest unused entries evicted, oldest first. */
  ghost predicate Evicted(a: Whole, n: nat, b: Whole) {
    n <= |a.books.lru| &&
    var gone := a.books.lru[..n];
    && b == a.(books := b.books, model := Minus(a.model, gone))
    && b.books.lru == a.books.lru[n..] && b.books.inUse == a.books.inUse && b.books.deleted == a.books.deleted + gone
  }

  /** The entry a new one of the same name takes the place of. */
  ghost function Displaced(a: Whole, e: Handle): seq<Handle> {
    if a.capacity > 0 && NameOf(e) in a.model then [a.model[NameOf(e)]] else []
  }

  ghost function WithoutAll(s: seq<Handle>, gone: seq<Handle>): seq<Handle> {
    if gone == [] then s else Without(s, gone[0])
  }

  /** What becomes of the deleters of entries dropped from the cache: those nobody holds run now. */
  ghost function Unheld(gone: seq<Handle>, clients: multiset<Handle>): seq<Handle> {
    if gone != [] && gone[0] in clients then [] else gone
  }

  /** The new entry is in the cache, and its caller holds it. */
  ghost predicate Added(a: Whole, e: Handle, b: Whole) {
    && e !in a.created && b.created == a.created + {e} && b.clients == a.clients + multiset{e} && b.capacity == a.capacity
    && b.model == (if a.capacity > 0 then a.model[NameOf(e) := e] else a.model)
    && b.books.lru == WithoutAll(a.books.lru, Displaced(a, e))
    && b.books.deleted == a.books.deleted + Unheld(Displaced(a, e), a.clients)
  }

  /** And the oldest unused entries have been evicted until the others fit, and not one more. */
  ghost predicate Inserted(a: Whole, e: Handle, evicted: seq<Handle>, b: Whole) {
    && e !in a.created && b.created == a.created + {e} && b.clients == a.clients + multiset{e} && b.capacity == a.capacity
    && b.model == Minus(if a.capacity > 0 then a.model[NameOf(e) := e] else a.model, evicted)
    && evicted + b.books.lru == WithoutAll(a.books.lru, Displaced(a, e))
    && b.books.deleted == a.books.deleted + Unheld(Displaced(a, e), a.clients) + evicted
    && (b.books.usage <= b.capacity || b.books.lru == [])
    && (evicted != [] ==> b.books.usage + evicted[|evicted| - 1].charge > b.capacity)
  }

  lemma InsertedIs(a: Whole, e: Handle, b: Whole, n: nat, c: Whole)
    requires Added(a, e, b) && Evicted(b, n, c)
    requires c.books.usage <= c.capacity || c.books.lru == []
    requires Needed(b, n, c, c.capacity)
    ensures Inserted(a, e, b.books.lru[..n], c)
  {
  }

  /** The books with a new entry that its caller and the cache hold. */
  ghost function BothOf(b: Books, e: Handle): Books {
    b.(refs := b.refs[e := 2], cached := b.cached + {e}, inUse := b.inUse + [e], usage := b.usage + e.charge)
  }

  ghost function AloneOf(b: Books, e: Handle): Books {
    b.(refs := b.refs[e := 1])
  }

  lemma TwiceSet(refs: map<Handle, nat>, e: Handle)
    ensures refs[e := 1][e := 2] == refs[e := 2]
  {
  }

  ghost function AddOf(w: Whole, e: Handle, b: Books): Whole {
    w.(books := b, clients := w.clients + multiset{e}, created := w.created + {e}, nextId := w.nextId + 1,
       model := if w.capacity > 0 then w.model[NameOf(e) := e] else w.model)
  }

  lemma NewIsNew(w: Whole, e: Handle)
    requires Sound(w) && e.id == w.nextId
    ensures e !in w.created && e !in w.clients && e !in w.books.refs && e !in w.books.cached && e !in w.books.deleted
  {
    assert e !in w.created;
  }

  lemma AddUncached(w: Whole, e: Handle)
    requires Sound(w) && e.id == w.nextId && w.capacity == 0
    ensures var w' := AddOf(w, e, AloneOf(w.books, e)); Sound(w') && Added(w, e, w')
  {
    NewIsNew(w, e);
    AddKeeps(w.books, w.clients, e);
  }

  lemma AddFresh(w: Whole, e: Handle)
    requires Sound(w) && e.id == w.nextId && w.capacity > 0 && NameOf(e) !in w.model
    ensures var w' := AddOf(w, e, BothOf(w.books, e)); Sound(w') && Added(w, e, w')
  {
    NewIsNew(w, e);
    AddKeeps(w.books, w.clients, e);
    TableReplaces(w.books.cached, w.model, e);
  }

  lemma BothBooked(w: Whole, e: Handle)
    requires Sound(w) && e.id == w.nextId
    ensures BothOf(w.books, e) in BooksFor(w.clients + multiset{e})
  {
    NewIsNew(w, e);
    AddKeeps(w.books, w.clients, e);
  }

  lemma ReplacedBooks(w: Whole, e: Handle)
    requires Sound(w) && e.id == w.nextId && w.capacity > 0 && NameOf(e) in w.model
    ensures var both, gone := BothOf(w.books, e), w.model[NameOf(e)];
            && gone in both.cached && gone in both.refs && both.refs[gone] > 0 && gone in DetachOf(both, gone).refs
            && var b := EraseOf(both, gone);
            && Booked(b, w.clients + multiset{e}) && b.cached == w.books.cached + {e} - {gone}
            && b.lru == Without(w.books.lru, gone)
            && b.deleted == w.books.deleted + (if gone in w.clients then [] else [gone])
            && (forall h :: h in b.refs || h in b.deleted <==> h in both.refs || h in both.deleted)
  {
    var both, gone := BothOf(w.books, e), w.model[NameOf(e)];
    NewIsNew(w, e);
    BothBooked(w, e);
    EraseKeeps(both, w.clients + multiset{e}, gone);
    assert gone in w.clients + multiset{e} <==> gone in w.clients;
  }

  lemma AddReplaces(w: Whole, e: Handle)
    requires Sound(w) && e.id == w.nextId && w.capacity > 0 && NameOf(e) in w.model
    ensures var both, gone := BothOf(w.books, e), w.model[NameOf(e)];
            && gone in both.cached && gone in both.refs && both.refs[gone] > 0
            && var w' := AddOf(w, e, EraseOf(both, gone)); Sound(w') && Added(w, e, w')
  {
    ReplacedBooks(w, e);
    NewIsNew(w, e);
    var both, gone := BothOf(w.books, e), w.model[NameOf(e)];
    TableReplaces(w.books.cached, w.model, e);
    StillCreated(w, e, both, EraseOf(both, gone));
  }

  lemma Target(w: Whole, e: Handle) returns (w': Whole)
    requires Sound(w) && e.id == w.nextId && w.capacity > 0
    ensures Sound(w') && Added(w, e, w')
    ensures w' == AddOf(w, e, w'.books)
    ensures NameOf(e) !in w.model ==> w'.books == BothOf(w.books, e)
    ensures NameOf(e) in w.model ==>
              var both, gone := BothOf(w.books, e), w.model[NameOf(e)];
              && gone in both.cached && gone in both.refs && both.refs[gone] > 0 && gone in DetachOf(both, gone).refs
              && w'.books == EraseOf(both, gone)
  {
    if NameOf(e) in w.model {
      AddReplaces(w, e);
      w' := AddOf(w, e, EraseOf(BothOf(w.books, e), w.model[NameOf(e)]));
    } else {
      AddFresh(w, e);
      w' := AddOf(w, e, BothOf(w.books, e));
    }
  }

  lemma StillCreated(w: Whole, e: Handle, both: Books, b: Books)
    requires Sound(w) && e.id == w.nextId && both == BothOf(w.books, e)
    requires forall h :: h in b.refs || h in b.deleted <==> h in both.refs || h in both.deleted
    ensures forall h :: h in w.created + {e} <==> h in b.refs || h in b.deleted
    ensures forall h :: h in w.created + {e} ==> h.id < w.nextId + 1
  {
  }

  lemma TableReplaces(cached: set<Handle>, model: map<Name, Handle>, e: Handle)
    requires Tabled(cached, model) && e !in cached
    ensures NameOf(e) in model ==> Tabled(cached + {e} - {model[NameOf(e)]}, model[NameOf(e) := e])
    ensures NameOf(e) !in model ==> Tabled(cached + {e}, model[NameOf(e) := e])
  {
  }

  ghost function LookupOf(w: Whole, e: Handle): Whole
    requires e in w.books.refs
  {
    w.(books := RefOf(w.books, e), clients := w.clients + multiset{e})
  }

  /** The caller now holds the entry of that name, if there is one; nobody else's handles, and no
      entry, are affected. */
  ghost predicate LookedUp(a: Whole, n: Name, e: Option<Handle>, b: Whole) {
    && e == (if n in a.model then Some(a.model[n]) else None)
    && b.model == a.model && b.created == a.created && b.capacity == a.capacity && b.books.deleted == a.books.deleted
    && b.clients == (if e.Some? then a.clients + multiset{e.value} else a.clients)
    && b.books.lru == if e.Some? then Without(a.books.lru, e.value) else a.books.lru
  }

  lemma LookupKeeps(w: Whole, e: Handle)
    requires Sound(w) && e in w.books.cached
    ensures e in w.books.refs && Sound(LookupOf(w, e)) && LookedUp(w, NameOf(e), Some(e), LookupOf(w, e))
  {
    RefKeeps(w.books, w.clients, e);
  }

  ghost function ReleaseOf(w: Whole, e: Handle): Whole
    requires e in w.books.refs && w.books.refs[e] > 0
  {
    w.(books := UnrefOf(w.books, e), clients := w.clients - multiset{e})
  }

  /** One handle less.  An entry nobody else holds becomes the newest of the unused, or, if it is
      no longer cached, goes to its deleter. */
  ghost predicate Released(a: Whole, e: Handle, b: Whole) {
    && b == a.(books := b.books, clients := a.clients - multiset{e})
    && b.books.cached == a.books.cached
    && b.books.lru == (if e !in b.clients && e in b.books.cached then a.books.lru + [e] else a.books.lru)
    && b.books.deleted == (if e !in b.clients && e !in b.books.cached then a.books.deleted + [e] else a.books.deleted)
  }

  lemma ReleaseKeeps(w: Whole, e: Handle)
    requires Sound(w) && e in w.clients
    ensures e in w.books.refs && w.books.refs[e] > 0 && Sound(ReleaseOf(w, e)) && Released(w, e, ReleaseOf(w, e))
  {
    UnrefKeeps(w.books, w.clients, e);
  }

  lemma EraseKeeps(b: Books, clients: multiset<Handle>, e: Handle)
    requires Booked(b, clients) && e in b.cached
    ensures var d := DetachOf(b, e); e in d.refs && d.refs[e] > 0 && Booked(UnrefOf(d, e), clients)
    ensures var r := UnrefOf(DetachOf(b, e), e);
            && r.cached == b.cached - {e} && r.lru == Without(b.lru, e) && r.inUse == Without(b.inUse, e) && r.usage == b.usage - e.charge
            && r.deleted == (if e !in clients then b.deleted + [e] else b.deleted)
            && (forall h :: h in r.refs || h in r.deleted <==> h in b.refs || h in b.deleted)
  {
    DetachKeeps(b, clients, e);
    UnrefKeeps(DetachOf(b, e), clients + multiset{e}, e);
    assert clients + multiset{e} - multiset{e} == clients;
  }

  function EraseOf(b: Books, e: Handle): Books
    requires e in DetachOf(b, e).refs && DetachOf(b, e).refs[e] > 0
  {
    UnrefOf(DetachOf(b, e), e)
  }

  lemma DropKeeps(w: Whole, n: Name)
    requires Sound(w)
    ensures n in w.model ==>
              var e := w.model[n];
              e in w.books.cached && e in w.books.refs && w.books.refs[e] > 0 && Sound(w.(books := EraseOf(w.books, e), model := w.model - {n}))
    ensures n !in w.model ==> w.model - {n} == w.model
  {
    if n in w.model {
      EraseKeeps(w.books, w.clients, w.model[n]);
      TableDrops(w.books.cached, w.model, w.model[n]);
    }
  }

  lemma EraseDeletes(a: Whole, n: Name, b: Whole)
    requires Sound(a) && Dropped(a, n, b)
    ensures b.books.deleted == if n in a.model && a.model[n] !in a.clients then a.books.deleted + [a.model[n]] else a.books.deleted
  {
    if n in a.model {
      EraseKeeps(a.books, a.clients, a.model[n]);
    }
  }

  lemma OldestDrops(a: Whole, b: Whole)
    requires Sound(a) && a.books.lru != [] && Dropped(a, NameOf(a.books.lru[0]), b)
    ensures EvictedOne(a, b)
  {
    var e := a.books.lru[0];
    assert e in a.books.lru && e in a.books.cached && e !in a.clients && e !in a.books.inUse;
    EraseKeeps(a.books, a.clients, e);
    OldestGone(a.books.lru);
    MinusOne(a.books.cached, a.model, e);
  }

  lemma EvictedAll(a: Whole, n: nat, b: Whole)
    requires Evicted(a, n, b) && b.books.lru == []
    ensures n == |a.books.lru|
  {
  }

  lemma EvictedNone(a: Whole)
    ensures Evicted(a, 0, a)
  {
    assert Minus(a.model, a.books.lru[..0]) == a.model;
  }

  /** The last of the evictions was needed. */
  ghost predicate Needed(a: Whole, n: nat, b: Whole, limit: nat) {
    0 < n <= |a.books.lru| ==> b.books.usage + a.books.lru[n - 1].charge > limit
  }

  lemma EvictedNext(a: Whole, n: nat, b: Whole, c: Whole, limit: nat)
    requires Evicted(a, n, b) && b.books.lru != [] && EvictedOne(b, c)
    ensures Evicted(a, n + 1, c) && (b.books.usage > limit ==> Needed(a, n + 1, c, limit))
  {
    var lru := a.books.lru;
    assert lru[..n] + [lru[n]] == lru[..n + 1] && lru[n..][1..] == lru[n + 1..];
    assert Minus(Minus(a.model, lru[..n]), [lru[n]]) == Minus(a.model, lru[..n + 1]);
  }

  lemma TableDrops(cached: set<Handle>, model: map<Name, Handle>, e: Handle)
    requires Tabled(cached, model) && e in cached
    ensures Tabled(cached - {e}, model - {NameOf(e)})
  {
  }

  // The same of books kept folded

  lemma RefBooks(b: Books, clients: multiset<Handle>, e: Handle)
    requires b in BooksFor(clients) && e in b.refs
    ensures RefOf(b, e) in BooksFor(clients + multiset{e})
  {
    RefKeeps(b, clients, e);
  }

  lemma UnrefBooks(b: Books, clients: multiset<Handle>, e: Handle)
    requires b in BooksFor(clients) && e in clients
    ensures e in b.refs && b.refs[e] > 0 && UnrefOf(b, e) in BooksFor(clients - multiset{e})
  {
    UnrefKeeps(b, clients, e);
  }

  lemma DetachBooks(b: Books, clients: multiset<Handle>, e: Handle)
    requires b in BooksFor(clients) && e in b.cached
    ensures DetachOf(b, e) in BooksFor(clients + multiset{e})
    ensures e in DetachOf(b, e).refs && DetachOf(b, e).refs[e] > 0
  {
    DetachKeeps(b, clients, e);
  }

  class LRUCache {
    var capacity: nat
    var usage: int
    var lru: seq<Handle>
    var inUse: seq<Handle>
    var refs: map<Handle, nat>
    var cached: set<Handle>
    var deleted: seq<Handle>
    var nextId: nat
    const table: HandleTable
    /** The handles clients have been given and not released. */
    ghost var clients: multiset<Handle>
    ghost var created: set<Handle>

    function State(): Books
      reads this
    {
      Books(lru, inUse, refs, cached, usage, deleted)
    }

    ghost function Snapshot(): Whole
      reads this, table
    {
      Whole(State(), table.model, clients, created, capacity, nextId)
    }

    ghost predicate Valid()
      reads this, table
    {
      table.Valid() && Sound(Snapshot())
    }

    constructor (capacity: nat)
      ensures Valid() && this.capacity == capacity && fresh(table)
      ensures clients == multiset{} && table.model == map[] && created == {}
    {
      this.capacity := capacity;
      lru, inUse, refs, cached, usage, deleted, nextId := [], [], map[], {}, 0, [], 0;
      table := new HandleTable();
      clients, created := multiset{}, {};
    }

    /** One more handle on `e` beside those in `held`, and the books are right for that. */
    method Ref(e: Handle, ghost held: multiset<Handle>)
      requires State() in BooksFor(held) && e in refs
      modifies this
      ensures State() in BooksFor(held + multiset{e}) && State() == RefOf(old(State()), e)
      ensures capacity == old(capacity) && nextId == old(nextId) && clients == old(clients) && created == old(created)
    {
      RefBooks(State(), held, e);
      if refs[e] == 1 && e in cached {
        lru := Without(lru, e);
        inUse := inUse + [e];
      }
      refs := refs[e := refs[e] + 1];
    }

    /** One handle on `e` fewer than those in `held`: books that were right for those are right for the rest.
        The destructor calls it on books that are not. */
    method Unref(e: Handle, ghost held: multiset<Handle>)
      requires e in refs && refs[e] > 0
      modifies this
      ensures old(State()) in BooksFor(held) && e in held ==> State() in BooksFor(held - multiset{e})
      ensures State() == UnrefOf(old(State()), e)
      ensures capacity == old(capacity) && nextId == old(nextId) && clients == old(clients) && created == old(created)
    {
      if State() in BooksFor(held) && e in held {
        UnrefBooks(State(), held, e);
      }
      var n := refs[e] - 1;
      refs := refs[e := n];
      if n == 0 {
        deleted := deleted + [e];
        refs := refs - {e};
        assert refs == old(refs) - {e};
      } else if e in cached && n == 1 {
        inUse := Without(inUse, e);
        lru := lru + [e];
      }
    }

    /** FinishErase, for an entry already out of the table. */
    method FinishErase(e: Handle, ghost held: multiset<Handle>)
      requires State() in BooksFor(held) && e in cached
      modifies this
      ensures State() in BooksFor(held)
      ensures e in DetachOf(old(State()), e).refs && DetachOf(old(State()), e).refs[e] > 0 && State() == EraseOf(old(State()), e)
      ensures capacity == old(capacity) && nextId == old(nextId) && clients == old(clients) && created == old(created)
    {
      DetachBooks(State(), held, e);
      Detach(e);
      Unref(e, held + multiset{e});
      assert held + multiset{e} - multiset{e} == held;
    }

    /** LRU_Remove, in_cache and usage_. */
    method Detach(e: Handle)
      modifies this
      ensures State() == DetachOf(old(State()), e)
      ensures capacity == old(capacity) && nextId == old(nextId) && clients == old(clients) && created == old(created)
    {
      lru, inUse := Without(lru, e), Without(inUse, e);
      cached := cached - {e};
      usage := usage - e.charge;
    }

    method Lookup(key: Bytes, hash: nat) returns (e: Option<Handle>)
      requires Valid()
      modifies this
      ensures Valid() && LookedUp(old(Snapshot()), Name(hash, key), e, Snapshot())
    {
      ghost var before := Snapshot();
      e := table.Lookup(key, hash);
      if e.Some? {
        LookupKeeps(before, e.value);
        Hold(e.value);
      }
    }

    /** Ref, for a client. */
    method Hold(e: Handle)
      requires State() in BooksFor(clients) && e in refs
      modifies this
      ensures Snapshot() == LookupOf(old(Snapshot()), e)
    {
      Ref(e, clients);
      clients := clients + multiset{e};
    }

    method Release(e: Handle)
      requires Valid() && e in clients
      modifies this
      ensures Valid() && Released(old(Snapshot()), e, Snapshot())
    {
      ghost var before := Snapshot();
      ReleaseKeeps(before, e);
      Unref(e, clients);
      clients := clients - multiset{e};
      assert Snapshot() == ReleaseOf(before, e);
    }

    /** FinishErase(table_.Remove(key, hash)). */
    method Drop(key: Bytes, hash: nat) returns (erased: bool)
      requires Valid()
      modifies this, table
      ensures Valid() && erased == (Name(hash, key) in old(table.model))
      ensures Dropped(old(Snapshot()), Name(hash, key), Snapshot())
    {
      ghost var before := Snapshot();
      DropKeeps(before, Name(hash, key));
      var e := table.Remove(key, hash);
      erased := e.Some?;
      if erased {
        FinishErase(e.value, clients);
      }
      assert Dropped(before, Name(hash, key), Snapshot());
    }

    method Erase(key: Bytes, hash: nat)
      requires Valid()
      modifies this, table
      ensures Valid() && table.model == old(table.model) - {Name(hash, key)}
      ensures clients == old(clients) && created == old(created) && capacity == old(capacity)
      ensures deleted == if Name(hash, key) in old(table.model) && old(table.model)[Name(hash, key)] !in clients
                         then old(deleted) + [old(table.model)[Name(hash, key)]] else old(deleted)
    {
      ghost var before := Snapshot();
      var _ := Drop(key, hash);
      EraseDeletes(before, Name(hash, key), Snapshot());
    }

    /** Evicts the oldest unused entry. */
    method EvictOldest()
      requires Valid() && lru != []
      modifies this, table
      ensures Valid() && EvictedOne(old(Snapshot()), Snapshot())
    {
      ghost var before := Snapshot();
      var oldest := lru[0];
      var erased := Drop(oldest.key, oldest.hash);
      OldestDrops(before, Snapshot());
    }

    /** Gives every unused entry to its deleter, oldest first. */
    method Prune()
      requires Valid()
      modifies this, table
      ensures Valid() && lru == [] && Evicted(old(Snapshot()), |old(lru)|, Snapshot())
    {
      ghost var before := Snapshot();
      var n := EvictWhile(0, true);
      EvictedAll(before, n, Snapshot());
    }

    /** The loops of Insert and Prune: from the oldest on, until the cache is small enough or no
        unused entry is left; `all` is Prune's. */
    method EvictWhile(limit: nat, all: bool) returns (n: nat)
      requires Valid()
      modifies this, table
      ensures Valid() && Evicted(old(Snapshot()), n, Snapshot())
      ensures lru == [] || (!all && usage <= limit)
      ensures all || Needed(old(Snapshot()), n, Snapshot(), limit)
    {
      n := 0;
      ghost var start := Snapshot();
      EvictedNone(start);
      while (all || usage > limit) && lru != []
        invariant Valid() && Evicted(start, n, Snapshot())
        invariant all || Needed(start, n, Snapshot(), limit)
        decreases |lru|
      {
        ghost var before := Snapshot();
        EvictOldest();
        EvictedNext(start, n, before, Snapshot(), limit);
        n := n + 1;
      }
    }

    /** The new entry replaces the one of its name, and then the oldest unused entries go until the
        rest fits; it goes no further than it must. */
    method Insert(key: Bytes, hash: nat, charge: nat) returns (e: Handle, ghost evicted: seq<Handle>)
      requires Valid()
      modifies this, table
      ensures Valid() && NameOf(e) == Name(hash, key) && e.charge == charge
      ensures Inserted(old(Snapshot()), e, evicted, Snapshot())
    {
      ghost var before := Snapshot();
      e := AddEntry(key, hash, charge);
      ghost var middle := Snapshot();
      var n := EvictWhile(capacity, false);
      evicted := middle.books.lru[..n];
      InsertedIs(before, e, middle, n, Snapshot());
    }

    /** Insert up to its eviction loop. */
    method AddEntry(key: Bytes, hash: nat, charge: nat) returns (e: Handle)
      requires Valid()
      modifies this, table
      ensures Valid() && NameOf(e) == Name(hash, key) && e.charge == charge
      ensures Added(old(Snapshot()), e, Snapshot())
    {
      ghost var before := Snapshot();
      e := NewEntry(key, hash, charge);
      if capacity > 0 {
        Share(e);
        TwiceSet(before.books.refs, e);
        AddToTable(e, before);
      } else {
        AddUncached(before, e);
      }
    }

    /** A new entry, which its caller holds. */
    method NewEntry(key: Bytes, hash: nat, charge: nat) returns (e: Handle)
      modifies this
      ensures e == Handle(old(nextId), key, hash, charge)
      ensures Snapshot() == Whole(AloneOf(old(State()), e), old(table.model), old(clients) + multiset{e}, old(created) + {e}, old(capacity), old(nextId) + 1)
    {
      e := Handle(nextId, key, hash, charge);
      nextId := nextId + 1;
      refs := refs[e := 1];
      clients := clients + multiset{e};
      created := created + {e};
    }

    /** The cache's own reference. */
    method Share(e: Handle)
      requires e in refs && refs[e] == 1
      modifies this
      ensures State() == old(State()).(refs := old(refs)[e := 2], cached := old(cached) + {e}, inUse := old(inUse) + [e], usage := old(usage) + e.charge)
      ensures capacity == old(capacity) && nextId == old(nextId) && clients == old(clients) && created == old(created)
    {
      refs := refs[e := refs[e] + 1];
      cached := cached + {e};
      inUse := inUse + [e];
      usage := usage + e.charge;
    }

    method AddToTable(e: Handle, ghost before: Whole)
      requires table.Valid() && Sound(before) && capacity > 0 && e.id == before.nextId
      requires State() == BothOf(before.books, e) && table.model == before.model && capacity == before.capacity && nextId == before.nextId + 1
      requires clients == before.clients + multiset{e} && created == before.created + {e}
      modifies this, table
      ensures Valid() && Added(before, e, Snapshot())
    {
      ghost var target := Target(before, e);
      BothBooked(before, e);
      PutInTable(e);
      assert State() == target.books;
      assert Snapshot() == target;
    }

    /** FinishErase(table_.Insert(e)). */
    method PutInTable(e: Handle)
      requires table.Valid() && State() in BooksFor(clients)
      requires NameOf(e) in table.model ==>
                 var gone := table.model[NameOf(e)];
                 gone in cached && gone in refs && refs[gone] > 0
      modifies this, table
      ensures table.Valid() && table.model == old(table.model)[NameOf(e) := e]
      ensures State() == if NameOf(e) in old(table.model) then EraseOf(old(State()), old(table.model)[NameOf(e)]) else old(State())
      ensures capacity == old(capacity) && nextId == old(nextId) && clients == old(clients) && created == old(created)
    {
      var replaced := table.Insert(e);
      if replaced.Some? {
        FinishErase(replaced.value, clients);
      }
    }

    /** ~LRUCache, with no handle outstanding: then every entry there ever was has been given to
        its deleter exactly once. */
    method Destroy()
      requires Valid() && clients == multiset{}
      modifies this
      ensures Distinct(deleted) && forall h :: h in deleted <==> h in old(created)
    {
      ghost var before, all := State(), created;
      AllUnused(before);
      assert forall h :: h in all <==> h in before.lru || h in before.deleted;
      assert before.lru[0..] == before.lru && before.deleted + before.lru[..0] == before.deleted;
      DestroyUnused(before);
      assert deleted == before.deleted + before.lru;
    }

    /** The destructor's loop. */
    method DestroyUnused(ghost before: Books)
      requires Destroyed(before, 0, State()) && Distinct(before.lru)
      modifies this
      ensures deleted == before.deleted + before.lru
    {
      var i := 0;
      while i < |lru|
        invariant Destroyed(before, i, State())
      {
        DestroyedNext(before, i, State());
        cached := cached - {lru[i]};
        Unref(lru[i], multiset{});
        i := i + 1;
      }
      assert lru[..i] == lru;
    }
  }

  /** The first `i` unused entries deleted, when nothing is in use. */
  ghost predicate Destroyed(a: Books, i: nat, b: Books) {
    && i <= |a.lru| && b.lru == a.lru && b.deleted == a.deleted + a.lru[..i]
    && (forall h :: h in b.refs <==> h in a.lru[i..]) && forall h :: h in b.refs ==> b.refs[h] == 1
  }

  lemma NotLater(s: seq<Handle>, i: nat)
    requires Distinct(s) && i < |s|
    ensures s[i] !in s[i + 1..]
  {
    var rest := s[i + 1..];
    forall j | 0 <= j < |rest| ensures rest[j] != s[i] {
      assert rest[j] == s[i + 1 + j];
    }
  }

  lemma RestOf(s: seq<Handle>, i: nat)
    requires i < |s|
    ensures forall h :: h in s[i..] <==> h == s[i] || h in s[i + 1..]
  {
    assert s[i..] == [s[i]] + s[i + 1..];
  }

  lemma DestroyedNext(a: Books, i: nat, b: Books)
    requires Destroyed(a, i, b) && i < |a.lru| && Distinct(a.lru)
    ensures var e := a.lru[i];
            e in b.refs && b.refs[e] == 1 && Destroyed(a, i + 1, UnrefOf(b.(cached := b.cached - {e}), e))
  {
    var e := a.lru[i];
    RestOf(a.lru, i);
    NotLater(a.lru, i);
    assert a.lru[..i + 1] == a.lru[..i] + [e];
    assert UnrefOf(b.(cached := b.cached - {e}), e).refs == b.refs - {e};
  }

  lemma AllUnused(b: Books)
    requires Booked(b, multiset{})
    ensures forall h :: h in b.refs <==> h in b.lru
    ensures forall h :: h in b.refs ==> b.refs[h] == 1
    ensures Distinct(b.deleted + b.lru)
  {
    forall i, j | 0 <= i < j < |b.deleted + b.lru| ensures (b.deleted + b.lru)[i] != (b.deleted + b.lru)[j] {
      if i < |b.deleted| <= j {
        assert b.deleted[i] in b.deleted && b.lru[j - |b.deleted|] in b.lru;
      }
    }
  }

  lemma OldestGone(lru: seq<Handle>)
    requires Distinct(lru) && lru != []
    ensures Without(lru, lru[0]) == lru[1..]
  {
    assert lru[0] !in lru[1..];
  }

  lemma MinusOne(cached: set<Handle>, model: map<Name, Handle>, e: Handle)
    requires Tabled(cached, model) && e in cached
    ensures Minus(model, [e]) == model - {NameOf(e)}
  {
  }
}
