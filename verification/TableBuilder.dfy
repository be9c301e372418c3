/** table/table_builder.cc. */
module TableBuilder {
  import opened Keys
  import opened Coding
  import opened LogFormat
  import opened Block
  import opened Filter
  import opened FilterBlock
  import opened Separator
  import opened TableFormat
  import opened Table

  // Invariants

  /** All blocks but perhaps the last have their index key; the last lacks it exactly while an
      index entry is pending, and then no block has been begun. */
  ghost predicate Sofar(t: Spec, pending: bool) {
    && CutsOk(t) && SepsOk(t) && Ordered(t.es)
    && |t.seps| == |t.handles| - (if pending then 1 else 0)
    && (pending ==> t.cuts[|t.handles|] == |t.es|)
  }

  /** The key may come next: it is after the last one, and after a separator just made. */
  ghost predicate MayFollow(t: Spec, key: Bytes)
    requires CutsOk(t) && |t.seps| == |t.handles| && Ordered(t.es) && SepsOk(t)
  {
    && |key| >= 8 && (t.es != [] ==> Less(t.es[|t.es| - 1].key, key))
    && (t.handles != [] && t.cuts[|t.handles|] == |t.es| ==>
          var sep := t.seps[|t.seps| - 1];
          Less(sep, key) && (sep == t.es[|t.es| - 1].key || UserLess(UserOf(sep), UserOf(key))))
  }

  lemma SepEmitted(t: Spec, sep: Bytes, key: Bytes)
    requires Sofar(t, true) && |sep| >= 8 && |key| >= 8
    requires var last := t.es[|t.es| - 1].key;
             Less(last, key) && (sep == last || (UserLess(UserOf(last), UserOf(sep)) && UserLess(UserOf(sep), UserOf(key))))
    ensures var t' := t.(seps := t.seps + [sep]); Sofar(t', false) && MayFollow(t', key)
  {
    var t' := t.(seps := t.seps + [sep]);
    var n := |t.handles|;
    LastSep(t.es, sep);
    assert t.cuts[n - 1] < t.cuts[n];
  }

  /** A key at or after the last entry has every entry at or before it. */
  lemma LastSep(es: seq<Pair>, sep: Bytes)
    requires Ordered(es) && es != [] && |sep| >= 8
    requires var last := es[|es| - 1].key; sep == last || UserLess(UserOf(last), UserOf(sep))
    ensures Separates(es, |es|, sep)
  {
    forall p | 0 <= p < |es| ensures es[p].key == sep || Less(es[p].key, sep) {
      AtOrBefore(es[p].key, es[|es| - 1].key, sep);
    }
  }

  lemma AtOrBefore(a: Bytes, last: Bytes, sep: Bytes)
    requires (a == last || Less(a, last)) && |last| >= 8 && |sep| >= 8
    requires sep == last || UserLess(UserOf(last), UserOf(sep))
    ensures a == sep || Less(a, sep)
  {
    LessOrder(a, last, sep);
  }

  lemma OrderedMore(es: seq<Pair>, p: Pair)
    requires Ordered(es) && |p.key| >= 8 && (es != [] ==> Less(es[|es| - 1].key, p.key))
    ensures Ordered(es + [p])
  {
    forall i | 0 <= i < |es| ensures Less(es[i].key, p.key) {
      if i < |es| - 1 {
        LessOrder(es[i].key, es[|es| - 1].key, p.key);
      }
    }
  }

  lemma Appended(t: Spec, p: Pair)
    requires Sofar(t, false) && MayFollow(t, p.key)
    ensures Sofar(t.(es := t.es + [p]), false)
  {
    var t' := t.(es := t.es + [p]);
    var n := |t.es|;
    OrderedMore(t.es, p);
    forall i | 0 <= i < |t.seps| ensures Separates(t'.es, t.cuts[i + 1], t.seps[i]) {
      SeparatesMore(t, i, p);
    }
  }

  lemma SeparatesMore(t: Spec, i: nat, p: Pair)
    requires Sofar(t, false) && MayFollow(t, p.key) && i < |t.seps|
    ensures Separates(t.es + [p], t.cuts[i + 1], t.seps[i])
  {
    SepFacts(t, i);
    FollowFacts(t, p.key);
    OneSepMore(t.es, t.cuts[i + 1], t.seps[i], p);
  }

  lemma SepFacts(t: Spec, i: nat)
    requires Sofar(t, false) && i < |t.seps|
    ensures 0 < t.cuts[i + 1] <= |t.es| && Separates(t.es, t.cuts[i + 1], t.seps[i])
    ensures t.cuts[i + 1] == |t.es| ==> i == |t.seps| - 1 == |t.handles| - 1
  {
  }

  lemma FollowFacts(t: Spec, key: Bytes)
    requires Sofar(t, false) && MayFollow(t, key) && t.seps != []
    ensures t.es != [] && Less(t.es[|t.es| - 1].key, key)
    ensures t.cuts[|t.handles|] == |t.es| ==>
              var sep := t.seps[|t.seps| - 1];
              Less(sep, key) && (sep == t.es[|t.es| - 1].key || UserLess(UserOf(sep), UserOf(key)))
  {
  }

  lemma OneSepMore(es: seq<Pair>, cut: nat, sep: Bytes, p: Pair)
    requires 0 < cut <= |es| && Separates(es, cut, sep) && Less(es[|es| - 1].key, p.key)
    requires cut == |es| ==> Less(sep, p.key) && (sep == es[|es| - 1].key || UserLess(UserOf(sep), UserOf(p.key)))
    ensures Separates(es + [p], cut, sep)
  {
    if cut < |es| {
      SeparatesFurther(es, cut, sep, p);
    } else {
      SeparatesLast(es, sep, p);
    }
  }

  lemma SeparatesLast(es: seq<Pair>, sep: Bytes, p: Pair)
    requires es != [] && Separates(es, |es|, sep) && Less(sep, p.key)
    requires sep == es[|es| - 1].key || UserLess(UserOf(sep), UserOf(p.key))
    ensures Separates(es + [p], |es|, sep)
  {
    assert (es + [p])[|es| - 1] == es[|es| - 1] && (es + [p])[|es|] == p;
    OneMore(es, p, 0, |es|, (e: Pair) => e.key == sep || Less(e.key, sep));
  }

  lemma SeparatesFurther(es: seq<Pair>, cut: nat, sep: Bytes, p: Pair)
    requires 0 < cut < |es| && Separates(es, cut, sep) && Less(es[|es| - 1].key, p.key)
    ensures Separates(es + [p], cut, sep)
  {
    UserFollows(sep, es[|es| - 1].key, p.key);
    assert (es + [p])[cut - 1] == es[cut - 1];
    OneMore(es, p, 0, cut, (e: Pair) => e.key == sep || Less(e.key, sep));
    OneMore(es, p, cut, |es| + 1, (e: Pair) => Less(sep, e.key));
    if sep != es[cut - 1].key {
      OneMore(es, p, cut, |es| + 1, (e: Pair) => UserLess(UserOf(sep), UserOf(e.key)));
    }
  }

  lemma OneMore(es: seq<Pair>, p: Pair, from: nat, limit: nat, holds: Pair -> bool)
    requires from <= limit <= |es| + 1 && (forall q :: from <= q < limit && q < |es| ==> holds(es[q])) && (limit > |es| ==> holds(p))
    ensures forall q :: from <= q < limit ==> holds((es + [p])[q])
  {
  }

  lemma UserFollows(a: Bytes, b: Bytes, c: Bytes)
    requires Less(b, c)
    ensures UserLess(UserOf(a), UserOf(b)) ==> UserLess(UserOf(a), UserOf(c))
    ensures Less(a, b) ==> Less(a, c)
  {
    UserOrder(UserOf(a), UserOf(b), UserOf(c));
    LessOrder(a, b, c);
  }

  lemma Cut(t: Spec, h: Handle)
    requires Sofar(t, false) && t.cuts[|t.handles|] < |t.es|
    ensures Sofar(t.(cuts := t.cuts + [|t.es|], handles := t.handles + [h]), true)
  {
  }

  lemma BlocksStay(c: Checksum, file: Bytes, more: Bytes, interval: nat, t: Spec, p: Pair)
    requires interval > 0 && BlocksOk(c, file, interval, t)
    ensures BlocksOk(c, file + more, interval, t)
    ensures BlocksOk(c, file, interval, t.(es := t.es + [p]))
  {
    forall i | 0 <= i < |t.handles| ensures BlockOk(c, file + more, interval, t, i) && BlockOk(c, file, interval, t.(es := t.es + [p]), i) {
      assert BlockOk(c, file, interval, t, i);
      StoredStays(c, file, more, t.handles[i], BlockBytes(BlockEntries(t, i), interval));
      assert BlockEntries(t.(es := t.es + [p]), i) == BlockEntries(t, i);
    }
  }

  lemma BlockWritten(c: Checksum, file: Bytes, interval: nat, t: Spec)
    requires interval > 0 && CutsOk(t) && BlocksOk(c, file, interval, t)
    ensures var contents := BlockBytes(t.es[t.cuts[|t.handles|]..], interval);
            var t' := t.(cuts := t.cuts + [|t.es|], handles := t.handles + [Handle(|file|, |contents|)]);
            BlocksOk(c, file + contents + Trailer(c, contents), interval, t')
  {
    var n := |t.handles|;
    var contents := BlockBytes(t.es[t.cuts[n]..], interval);
    var t' := t.(cuts := t.cuts + [|t.es|], handles := t.handles + [Handle(|file|, |contents|)]);
    var more := contents + Trailer(c, contents);
    var file' := file + contents + Trailer(c, contents);
    assert file' == file + more;
    forall i | 0 <= i < |t'.handles| ensures BlockOk(c, file', interval, t', i) {
      if i < n {
        assert BlockOk(c, file, interval, t, i);
        StoredStays(c, file, more, t.handles[i], BlockBytes(BlockEntries(t, i), interval));
        assert BlockEntries(t', i) == BlockEntries(t, i);
      } else {
        assert BlockEntries(t', n) == t.es[t.cuts[n]..];
        assert file'[|file|..|file| + |contents| + TRAILER_SIZE] == more;
      }
    }
  }

  // The filter block

  /** `groups` and then `keys` cover the blocks written, and `keys` the one being built. */
  ghost predicate FilterSofar(t: Spec, size: nat, groups: seq<seq<Bytes>>, keys: seq<Bytes>)
    requires CutsOk(t)
  {
    && |groups| == size / FILTER_BASE && FilteredOk(t, groups + [keys])
    && forall p :: t.cuts[|t.handles|] <= p < |t.es| ==> t.es[p].key in keys
  }

  lemma KeyAdded(t: Spec, size: nat, groups: seq<seq<Bytes>>, keys: seq<Bytes>, p: Pair)
    requires CutsOk(t) && FilterSofar(t, size, groups, keys)
    ensures FilterSofar(t.(es := t.es + [p]), size, groups, keys + [p.key])
  {
    var t' := t.(es := t.es + [p]);
    forall i | 0 <= i < |t.handles| ensures BlockGrouped(t', groups + [keys + [p.key]], i) {
      assert BlockGrouped(t, groups + [keys], i);
    }
  }

  lemma BlockStarted(t: Spec, size: nat, groups: seq<seq<Bytes>>, keys: seq<Bytes>, length: nat, size': nat,
                     groups': seq<seq<Bytes>>, keys': seq<Bytes>)
    requires CutsOk(t) && FilterSofar(t, size, groups, keys)
    requires |groups'| == size' / FILTER_BASE && groups <= groups'
    requires if |groups'| == |groups| then keys' == keys else keys' == [] && groups'[|groups|] == keys
    ensures var t' := t.(cuts := t.cuts + [|t.es|], handles := t.handles + [Handle(size, length)]);
            t.cuts[|t.handles|] < |t.es| ==> CutsOk(t') && FilterSofar(t', size', groups', keys')
  {
    var t' := t.(cuts := t.cuts + [|t.es|], handles := t.handles + [Handle(size, length)]);
    forall i | 0 <= i < |t'.handles| && t.cuts[|t.handles|] < |t.es| ensures BlockGrouped(t', groups' + [keys'], i) {
      if i < |t.handles| {
        assert BlockGrouped(t, groups + [keys], i);
        var g := t.handles[i].offset / FILTER_BASE;
        assert (groups' + [keys'])[g] == (groups + [keys])[g];
      } else {
        assert (groups' + [keys'])[|groups|] == keys;
      }
    }
  }

  /** At the end the last group is made only if it has keys; every block has some. */
  lemma GroupsFinished(t: Spec, size: nat, groups: seq<seq<Bytes>>, keys: seq<Bytes>)
    requires CutsOk(t) && FilterSofar(t, size, groups, keys)
    ensures FilteredOk(t, if keys == [] then groups else groups + [keys])
  {
    forall i | 0 <= i < |t.handles| && keys == [] ensures BlockGrouped(t, groups, i) {
      assert BlockGrouped(t, groups + [keys], i);
      assert t.cuts[i] < t.cuts[i + 1];
      assert t.es[t.cuts[i]].key in (groups + [keys])[t.handles[i].offset / FILTER_BASE];
    }
  }

  /** The filter block in the file lets through the keys of every data block. */
  ghost predicate FilterStored(c: Checksum, file: Bytes, h: Handle, policy: Bloom, t: Spec, filters: seq<Bytes>, groups: seq<seq<Bytes>>) {
    && Stored(c, file, h, FilterBytes(filters)) && |groups| == |filters| && FilteredOk(t, groups)
    && forall g :: 0 <= g < |groups| ==> Covers(policy, filters[g], groups[g])
  }

  // The builder

  /** The builder's fields; `data` and `index` are the entries in the two block builders, `groups`
      and `keys` what the filter builder has. */
  datatype Parts = Parts(
    file: Bytes, lastKey: Bytes, pending: bool, handle: Handle, t: Spec,
    data: seq<Pair>, index: seq<Pair>, groups: seq<seq<Bytes>>, keys: seq<Bytes>)

  datatype Setting = Setting(c: Checksum, blockSize: nat, interval: nat, usesFilter: bool)

  ghost predicate Good(p: Parts, o: Setting) {
    && o.interval > 0 && Sofar(p.t, p.pending) && BlocksOk(o.c, p.file, o.interval, p.t)
    && p.data == p.t.es[p.t.cuts[|p.t.handles|]..]
    && p.index == IndexPairs(p.t)
    && (p.pending ==> p.handle == p.t.handles[|p.t.handles| - 1])
    && (p.t.es != [] ==> p.lastKey == p.t.es[|p.t.es| - 1].key)
    && (o.usesFilter ==> FilterSofar(p.t, |p.file|, p.groups, p.keys))
  }

  /** Between operations an index entry is pending unless a block has been begun. */
  ghost predicate Rested(p: Parts) {
    |p.t.cuts| == |p.t.handles| + 1 && (!p.pending && p.t.handles != [] ==> p.t.cuts[|p.t.handles|] < |p.t.es|)
  }

  /** The states between operations, and those in which the key may be appended. */
  ghost function Resting(o: Setting): iset<Parts> {
    iset p: Parts | Good(p, o) && Rested(p)
  }

  ghost function Accepting(o: Setting, key: Bytes): iset<Parts> {
    iset p: Parts | Good(p, o) && !p.pending && MayFollow(p.t, key)
  }

  /** The finished tables a file holds. */
  ghost function Tables(c: Checksum, file: Bytes, interval: nat): iset<Spec>
    requires interval > 0
  {
    iset t: Spec | Complete(t) && BlocksOk(c, file, interval, t)
  }

  lemma EmptyIsGood(o: Setting)
    requires o.interval > 0
    ensures Blank() in Resting(o)
  {
    assert Good(Blank(), o);
  }

  ghost function Blank(): Parts {
    Parts([], [], false, Handle(0, 0), Spec([], [0], [], []), [], [], [], [])
  }

  ghost function EmitOf(p: Parts, sep: Bytes): Parts {
    p.(t := p.t.(seps := p.t.seps + [sep]), index := p.index + [Pair(sep, EncodeHandle(p.handle))], pending := false)
  }

  lemma NothingToEmit(p: Parts, o: Setting, key: Bytes)
    requires Good(p, o) && Rested(p) && !p.pending && |key| >= 8 && (p.t.es != [] ==> Less(p.t.es[|p.t.es| - 1].key, key))
    ensures MayFollow(p.t, key)
  {
  }

  lemma EmitKeeps(p: Parts, o: Setting, sep: Bytes, key: Bytes)
    requires Good(p, o) && Rested(p) && p.pending && |key| >= 8 && |sep| >= 8 && Less(p.lastKey, key)
    requires sep == p.lastKey || (UserLess(UserOf(p.lastKey), UserOf(sep)) && UserLess(UserOf(sep), UserOf(key)))
    ensures Good(EmitOf(p, sep), o) && MayFollow(EmitOf(p, sep).t, key)
  {
    SepEmitted(p.t, sep, key);
    EmitIsGood(p, o, sep);
  }

  lemma EmitIsGood(p: Parts, o: Setting, sep: Bytes)
    requires Good(p, o) && p.pending && |p.t.cuts| == |p.t.handles| + 1 && Sofar(p.t.(seps := p.t.seps + [sep]), false)
    ensures Good(EmitOf(p, sep), o)
  {
    var t' := p.t.(seps := p.t.seps + [sep]);
    assert IndexPairs(t') == IndexPairs(p.t) + [Pair(sep, EncodeHandle(p.handle))];
    SepsDoNotMatter(p.t, t', o, p.file, p.groups + [p.keys]);
  }

  /** Blocks and filter groups do not depend on the index keys. */
  lemma SepsDoNotMatter(t: Spec, t': Spec, o: Setting, file: Bytes, groups: seq<seq<Bytes>>)
    requires t' == t.(seps := t'.seps) && o.interval > 0
    ensures BlocksOk(o.c, file, o.interval, t) ==> BlocksOk(o.c, file, o.interval, t')
    ensures FilteredOk(t, groups) ==> FilteredOk(t', groups)
  {
    if BlocksOk(o.c, file, o.interval, t) {
      forall i | 0 <= i < |t.handles| ensures BlockOk(o.c, file, o.interval, t', i) {
        assert BlockOk(o.c, file, o.interval, t, i);
      }
    }
    if FilteredOk(t, groups) {
      forall i | 0 <= i < |t.handles| ensures BlockGrouped(t', groups, i) {
        assert BlockGrouped(t, groups, i);
      }
    }
  }

  lemma AddKeeps(p: Parts, o: Setting, e: Pair)
    requires p in Accepting(o, e.key)
    ensures AppendOf(p, o, e) in Resting(o)
  {
    AddWritten(p, o, e);
    if o.usesFilter {
      KeyAdded(p.t, |p.file|, p.groups, p.keys, e);
    }
  }

  /** All but the filter. */
  lemma AddWritten(p: Parts, o: Setting, e: Pair)
    requires p in Accepting(o, e.key)
    ensures AppendOf(p, o, e) in Resting(o.(usesFilter := false))
  {
    Appended(p.t, e);
    BlocksStay(o.c, p.file, [], o.interval, p.t, e);
    MoreData(p.t, p.data, e);
  }

  lemma MoreData(t: Spec, data: seq<Pair>, e: Pair)
    requires CutsOk(t) && data == t.es[t.cuts[|t.handles|]..]
    ensures data + [e] == (t.es + [e])[t.cuts[|t.handles|]..]
  {
  }

  ghost function FlushOf(p: Parts, o: Setting): Parts
    requires o.interval > 0
  {
    var contents := BlockBytes(p.data, o.interval);
    var h := Handle(|p.file|, |contents|);
    p.(file := p.file + contents + Trailer(o.c, contents), handle := h, pending := true, data := [],
       t := p.t.(cuts := p.t.cuts + [|p.t.es|], handles := p.t.handles + [h]))
  }

  lemma FlushKeeps(p: Parts, o: Setting, groups: seq<seq<Bytes>>, keys: seq<Bytes>)
    requires p in Resting(o) && p.data != []
    requires o.usesFilter ==>
               && |groups| == |FlushOf(p, o).file| / FILTER_BASE && p.groups <= groups
               && if |groups| == |p.groups| then keys == p.keys else keys == [] && groups[|p.groups|] == p.keys
    ensures var p' := FlushOf(p, o).(groups := groups, keys := keys); p' in Resting(o)
  {
    FlushWritten(p, o);
    if o.usesFilter {
      BlockStarted(p.t, |p.file|, p.groups, p.keys, FlushOf(p, o).handle.size, |FlushOf(p, o).file|, groups, keys);
    }
  }

  /** All but the filter. */
  lemma FlushWritten(p: Parts, o: Setting)
    requires p in Resting(o) && p.data != []
    ensures CutsOk(p.t) && p.t.cuts[|p.t.handles|] < |p.t.es|
    ensures FlushOf(p, o) in Resting(o.(usesFilter := false))
  {
    Cut(p.t, FlushOf(p, o).handle);
    BlockWritten(o.c, p.file, o.interval, p.t);
    FlushIsGood(p, o, FlushOf(p, o));
  }

  lemma FlushIsGood(p: Parts, o: Setting, q: Parts)
    requires Good(p, o) && Rested(p) && p.data != [] && q == FlushOf(p, o)
    requires Sofar(q.t, true) && BlocksOk(o.c, q.file, o.interval, q.t)
    ensures q in Resting(o.(usesFilter := false))
  {
    assert IndexPairs(q.t) == IndexPairs(p.t);
  }

  ghost function Emitted(p: Parts, sep: Bytes): Parts {
    if p.pending then EmitOf(p, sep) else p
  }

  lemma EmittedIsGood(p: Parts, o: Setting, sep: Bytes, key: Bytes)
    requires p in Resting(o) && |key| >= 8 && |sep| >= 8 && (p.t.es != [] ==> Less(p.t.es[|p.t.es| - 1].key, key))
    requires p.pending ==> sep == p.lastKey || (UserLess(UserOf(p.lastKey), UserOf(sep)) && UserLess(UserOf(sep), UserOf(key)))
    ensures Emitted(p, sep) in Accepting(o, key) && Emitted(p, sep).t.es == p.t.es
  {
    if p.pending {
      HasLast(p.t);
      EmitKeeps(p, o, sep, key);
    } else {
      NothingToEmit(p, o, key);
    }
  }

  lemma LastKeyOk(p: Parts, o: Setting)
    requires p in Resting(o)
    ensures p.pending ==> |p.lastKey| >= 8
  {
    if p.pending {
      HasLast(p.t);
    }
  }

  /** The last index entry, and then all are there. */
  lemma FinishCompletes(p: Parts, o: Setting, succ: Bytes)
    requires p in Resting(o) && p.data == []
    requires p.pending ==> |succ| >= 8 && (succ == p.lastKey || UserLess(UserOf(p.lastKey), UserOf(succ)))
    ensures var t' := if p.pending then p.t.(seps := p.t.seps + [succ]) else p.t;
            && t' in Tables(o.c, p.file, o.interval)
            && IndexPairs(t') == (if p.pending then p.index + [Pair(succ, EncodeHandle(p.handle))] else p.index)
            && (o.usesFilter ==> FilteredOk(t', if p.keys == [] then p.groups else p.groups + [p.keys]))
  {
    if o.usesFilter {
      GroupsFinished(p.t, |p.file|, p.groups, p.keys);
    }
    if p.pending {
      LastSep(p.t.es, succ);
      var t' := p.t.(seps := p.t.seps + [succ]);
      assert IndexPairs(t') == p.index + [Pair(succ, EncodeHandle(p.handle))];
      SepsDoNotMatter(p.t, t', o, p.file, if p.keys == [] then p.groups else p.groups + [p.keys]);
    } else {
      assert p.t.es[p.t.cuts[|p.t.handles|]..] == [];
    }
  }

  lemma HasLast(t: Spec)
    requires Sofar(t, true)
    ensures t.es != [] && |t.es[|t.es| - 1].key| >= 8
  {
    assert t.cuts[0] < t.cuts[|t.handles|];
  }

  /** WriteRawBlock stores the contents, and nothing stored is lost. */
  lemma WriteKeeps(c: Checksum, file: Bytes, contents: Bytes, interval: nat, t: Spec)
    requires interval > 0 && t in Tables(c, file, interval)
    ensures t in Tables(c, file + contents + Trailer(c, contents), interval)
    ensures Stored(c, file + contents + Trailer(c, contents), Handle(|file|, |contents|), contents)
  {
    var all := file + contents + Trailer(c, contents);
    BlocksStay(c, file, contents, interval, t, Pair([], []));
    BlocksStay(c, file + contents, Trailer(c, contents), interval, t, Pair([], []));
    assert all[|file|..|file| + |contents| + TRAILER_SIZE] == contents + Trailer(c, contents);
  }

  lemma WriteKeepsStored(c: Checksum, file: Bytes, contents: Bytes, h: Handle, other: Bytes)
    requires Stored(c, file, h, other)
    ensures Stored(c, file + contents + Trailer(c, contents), h, other)
  {
    StoredStays(c, file, contents, h, other);
    StoredStays(c, file + contents, Trailer(c, contents), h, other);
  }

  lemma FlushGrows(p: Parts, o: Setting)
    requires p in Resting(o)
    ensures o.usesFilter ==> |p.groups| <= |FlushOf(p, o).file| / FILTER_BASE
  {
    assert |p.file| <= |FlushOf(p, o).file|;
  }

  ghost function AppendOf(p: Parts, o: Setting, e: Pair): Parts {
    p.(t := p.t.(es := p.t.es + [e]), data := p.data + [e], lastKey := e.key, keys := if o.usesFilter then p.keys + [e.key] else p.keys)
  }

  class TableBuilder {
    const o: Setting
    const dataBlock: BlockBuilder
    const indexBlock: BlockBuilder
    const filterBlock: FilterBlockBuilder
    var file: Bytes
    var lastKey: Bytes
    var pendingIndexEntry: bool
    var pendingHandle: Handle
    ghost var t: Spec

    ghost function State(): Parts
      reads this, dataBlock, indexBlock, filterBlock
    {
      Parts(file, lastKey, pendingIndexEntry, pendingHandle, t, dataBlock.entries, indexBlock.entries, filterBlock.groups, filterBlock.pending)
    }

    ghost predicate Linked()
      reads dataBlock, indexBlock, filterBlock
    {
      && dataBlock != indexBlock && dataBlock.Valid() && indexBlock.Valid() && filterBlock.Valid()
      && dataBlock.interval == o.interval && indexBlock.interval == 1
    }

    ghost predicate Valid()
      reads this, dataBlock, indexBlock, filterBlock
    {
      Linked() && State() in Resting(o)
    }

    constructor (o: Setting, policy: Bloom)
      requires o.interval > 0 && BloomOk(policy)
      ensures Valid() && fresh(dataBlock) && fresh(indexBlock) && fresh(filterBlock)
      ensures t.es == [] && this.o == o && filterBlock.policy == policy
    {
      this.o := o;
      dataBlock := new BlockBuilder(o.interval);
      indexBlock := new BlockBuilder(1);
      filterBlock := new FilterBlockBuilder(policy);
      file, lastKey, pendingIndexEntry, pendingHandle := [], [], false, Handle(0, 0);
      t := Spec([], [0], [], []);
      new;
      assert State() == Blank();
      EmptyIsGood(o);
    }

    /** The first part of Add: the index entry of the block before, with the key `sep`. */
    method EmitIndexEntry(key: Bytes) returns (ghost sep: Bytes)
      requires Linked() && |key| >= 8 && (pendingIndexEntry ==> |lastKey| >= 8)
      modifies this, indexBlock
      ensures Linked() && State() == Emitted(old(State()), sep)
      ensures |sep| >= 8
      ensures old(pendingIndexEntry) ==>
                sep == lastKey || (UserLess(UserOf(lastKey), UserOf(sep)) && UserLess(UserOf(sep), UserOf(key)))
    {
      sep := key;
      if pendingIndexEntry {
        var shortest := InternalSeparator(lastKey, key);
        sep := shortest;
        indexBlock.Add(shortest, EncodeHandle(pendingHandle));
        pendingIndexEntry := false;
        t := t.(seps := t.seps + [sep]);
      }
    }

    method Add(key: Bytes, value: Bytes)
      requires Valid() && |key| >= 8 && (t.es != [] ==> Less(t.es[|t.es| - 1].key, key))
      modifies this, dataBlock, indexBlock, filterBlock
      ensures Valid() && t.es == old(t.es) + [Pair(key, value)]
    {
      ghost var before := State();
      LastKeyOk(before, o);
      ghost var sep := EmitIndexEntry(key);
      EmittedIsGood(before, o, sep, key);
      AppendEntry(key, value);
      if dataBlock.SizeEstimate() >= o.blockSize {
        Flush();
      }
    }

    /** The second part of Add. */
    method AppendEntry(key: Bytes, value: Bytes)
      requires Linked() && State() in Accepting(o, key)
      modifies this, dataBlock, filterBlock
      ensures Valid() && t.es == old(t.es) + [Pair(key, value)]
    {
      ghost var before := State();
      AddKeeps(before, o, Pair(key, value));
      AddFilterKey(key);
      AddData(key, value);
      assert State() == AppendOf(before, o, Pair(key, value));
    }

    method AddData(key: Bytes, value: Bytes)
      requires Linked()
      modifies this, dataBlock
      ensures Linked() && State() == old(State()).(lastKey := key, data := old(dataBlock.entries) + [Pair(key, value)], t := t)
      ensures t == old(t).(es := old(t.es) + [Pair(key, value)])
    {
      lastKey := key;
      dataBlock.Add(key, value);
      t := t.(es := t.es + [Pair(key, value)]);
    }

    /** WriteBlock and WriteRawBlock, uncompressed. */
    method WriteRawBlock(contents: Bytes) returns (handle: Handle)
      modifies this`file
      ensures handle == Handle(|old(file)|, |contents|) && file == old(file) + contents + Trailer(o.c, contents)
    {
      handle := Handle(|file|, |contents|);
      file := file + contents;
      file := file + Trailer(o.c, contents);
    }

    method Flush()
      requires Valid()
      modifies this, dataBlock, filterBlock
      ensures Valid() && t.es == old(t.es) && dataBlock.entries == []
    {
      var empty := dataBlock.IsEmpty();
      if empty {
        return;
      }
      ghost var before := State();
      var contents := FinishData();
      WriteData(contents);
      assert State() == FlushOf(before, o);
      FlushGrows(before, o);
      StartFilter();
      FlushKeeps(before, o, filterBlock.groups, filterBlock.pending);
    }

    /** WriteRawBlock on the data block; an index entry is now pending. */
    method WriteData(contents: Bytes)
      modifies this
      ensures file == old(file) + contents + Trailer(o.c, contents) && lastKey == old(lastKey)
      ensures pendingIndexEntry && pendingHandle == Handle(|old(file)|, |contents|)
      ensures t == old(t).(cuts := old(t.cuts) + [|old(t.es)|], handles := old(t.handles) + [pendingHandle])
    {
      pendingHandle := WriteRawBlock(contents);
      pendingIndexEntry := true;
      t := t.(cuts := t.cuts + [|t.es|], handles := t.handles + [pendingHandle]);
    }

    method FinishData() returns (contents: Bytes)
      requires Linked() && o.interval > 0
      modifies dataBlock
      ensures Linked() && contents == BlockBytes(old(dataBlock.entries), o.interval) && State() == old(State()).(data := [])
    {
      contents := dataBlock.Finish();
      dataBlock.Reset();
    }

    /** The end of Flush: the next data block starts here. */
    method StartFilter()
      requires Linked() && (o.usesFilter ==> |filterBlock.groups| <= |file| / FILTER_BASE)
      modifies filterBlock
      ensures Linked() && State() == old(State()).(groups := filterBlock.groups, keys := filterBlock.pending)
      ensures o.usesFilter ==>
                && |filterBlock.groups| == |file| / FILTER_BASE && old(filterBlock.groups) <= filterBlock.groups
                && if |filterBlock.groups| == |old(filterBlock.groups)| then filterBlock.pending == old(filterBlock.pending)
                   else filterBlock.pending == [] && filterBlock.groups[|old(filterBlock.groups)|] == old(filterBlock.pending)
    {
      if o.usesFilter {
        filterBlock.StartBlock(|file|);
      }
    }

    method AddFilterKey(key: Bytes)
      requires Linked()
      modifies filterBlock
      ensures Linked() && State() == old(State()).(keys := if o.usesFilter then old(filterBlock.pending) + [key] else old(filterBlock.pending))
    {
      if o.usesFilter {
        filterBlock.AddKey(key);
      }
    }

    /** The filter block of Finish. */
    method FinishFilter() returns (contents: Bytes, ghost filters: seq<Bytes>, ghost groups: seq<seq<Bytes>>)
      requires filterBlock.Valid()
      modifies filterBlock
      ensures contents == FilterBytes(filters) && |groups| == |filters|
      ensures forall g :: 0 <= g < |groups| ==> Covers(filterBlock.policy, filters[g], groups[g])
      ensures groups == if old(filterBlock.pending) == [] then old(filterBlock.groups) else old(filterBlock.groups) + [old(filterBlock.pending)]
    {
      contents := filterBlock.Finish();
      filters, groups := filterBlock.filters, filterBlock.groups;
    }

    /** The index block of Finish. */
    method FinishIndex() returns (contents: Bytes, ghost whole: Spec)
      requires Valid() && dataBlock.entries == []
      modifies indexBlock
      ensures whole.es == t.es && whole in Tables(o.c, file, o.interval)
      ensures contents == BlockBytes(IndexPairs(whole), 1)
      ensures o.usesFilter ==>
                FilteredOk(whole, if filterBlock.pending == [] then filterBlock.groups else filterBlock.groups + [filterBlock.pending])
    {
      LastKeyOk(State(), o);
      var succ := LastSeparator();
      FinishCompletes(State(), o, succ);
      whole := if pendingIndexEntry then t.(seps := t.seps + [succ]) else t;
      contents := WriteIndex(succ);
    }

    /** The last index entry, if one is pending, and the index block. */
    method WriteIndex(succ: Bytes) returns (contents: Bytes)
      requires indexBlock.Valid() && indexBlock.interval == 1
      modifies indexBlock
      ensures contents == BlockBytes(if pendingIndexEntry then old(indexBlock.entries) + [Pair(succ, EncodeHandle(pendingHandle))]
                                     else old(indexBlock.entries), 1)
    {
      if pendingIndexEntry {
        indexBlock.Add(succ, EncodeHandle(pendingHandle));
      }
      contents := indexBlock.Finish();
    }

    /** The index key of the last block. */
    method LastSeparator() returns (succ: Bytes)
      requires pendingIndexEntry ==> |lastKey| >= 8
      ensures pendingIndexEntry ==> |succ| >= 8 && (succ == lastKey || UserLess(UserOf(lastKey), UserOf(succ)))
    {
      succ := [];
      if pendingIndexEntry {
        succ := InternalSuccessor(lastKey);
      }
    }

    /** Finish, without the metaindex block and the footer: the handles they would hold are returned. */
    method Finish() returns (filter: Handle, index: Handle, ghost whole: Spec, ghost filters: seq<Bytes>, ghost groups: seq<seq<Bytes>>)
      requires Valid()
      modifies this, dataBlock, indexBlock, filterBlock
      ensures o.interval > 0 && whole.es == old(t.es) && whole in Tables(o.c, file, o.interval)
      ensures Stored(o.c, file, index, BlockBytes(IndexPairs(whole), 1))
      ensures o.usesFilter ==> FilterStored(o.c, file, filter, filterBlock.policy, whole, filters, groups)
    {
      Flush();
      filter, index, whole, filters, groups := FinishFlushed();
    }

    /** Finish, once the last block is written. */
    method FinishFlushed() returns (filter: Handle, index: Handle, ghost whole: Spec, ghost filters: seq<Bytes>, ghost groups: seq<seq<Bytes>>)
      requires Valid() && dataBlock.entries == []
      modifies this, indexBlock, filterBlock
      ensures o.interval > 0 && whole.es == old(t.es) && whole in Tables(o.c, file, o.interval)
      ensures Stored(o.c, file, index, BlockBytes(IndexPairs(whole), 1))
      ensures o.usesFilter ==> FilterStored(o.c, file, filter, filterBlock.policy, whole, filters, groups)
    {
      filters, groups := [], [];
      var indexContents, filterContents: Bytes := [], [];
      indexContents, whole := FinishIndex();
      if o.usesFilter {
        filterContents, filters, groups := FinishFilter();
      }
      filter, index := WriteMeta(indexContents, filterContents, whole);
    }

    /** The filter block and the index block go to the file. */
    method WriteMeta(indexContents: Bytes, filterContents: Bytes, ghost whole: Spec) returns (filter: Handle, index: Handle)
      requires o.interval > 0 && whole in Tables(o.c, file, o.interval)
      modifies this`file
      ensures whole in Tables(o.c, file, o.interval) && Stored(o.c, file, index, indexContents)
      ensures o.usesFilter ==> Stored(o.c, file, filter, filterContents)
    {
      filter := Handle(0, 0);
      if o.usesFilter {
        WriteKeeps(o.c, file, filterContents, o.interval, whole);
        filter := WriteRawBlock(filterContents);
        WriteKeepsStored(o.c, file, indexContents, filter, filterContents);
      }
      WriteKeeps(o.c, file, indexContents, o.interval, whole);
      index := WriteRawBlock(indexContents);
    }
  }

  /** Adds the entries and finishes the table. */
  method BuildTable(o: Setting, policy: Bloom, es: seq<Pair>)
    returns (file: Bytes, filter: Handle, index: Handle, ghost t: Spec, ghost filters: seq<Bytes>, ghost groups: seq<seq<Bytes>>)
    requires o.interval > 0 && BloomOk(policy) && Ordered(es)
    ensures t.es == es && t in Tables(o.c, file, o.interval)
    ensures Stored(o.c, file, index, BlockBytes(IndexPairs(t), 1))
    ensures o.usesFilter ==> FilterStored(o.c, file, filter, policy, t, filters, groups)
  {
    var builder := new TableBuilder(o, policy);
    AddEntries(builder, es);
    filter, index, t, filters, groups := builder.Finish();
    file := builder.file;
  }

  method AddEntries(builder: TableBuilder, es: seq<Pair>)
    requires builder.Valid() && builder.t.es == [] && Ordered(es)
    modifies builder, builder.dataBlock, builder.indexBlock, builder.filterBlock
    ensures builder.Valid() && builder.t.es == es
  {
    for i := 0 to |es|
      invariant builder.Valid() && builder.t.es == es[..i]
    {
      LastOf(es, i);
      builder.Add(es[i].key, es[i].value);
    }
    assert es[..|es|] == es;
  }

  lemma LastOf(es: seq<Pair>, i: nat)
    requires Ordered(es) && i < |es|
    ensures |es[i].key| >= 8 && es[..i] + [Pair(es[i].key, es[i].value)] == es[..i + 1]
    ensures es[..i] != [] ==> Less(es[..i][|es[..i]| - 1].key, es[i].key)
  {
  }

  /** Builds a table of any increasing entries, and looks one key up.  If the file is small enough
      for 32-bit offsets, the answer is the first entry not before `k` whenever that has the user key
      of `k`, and never anything else; with a filter or without. */
  method BuildThenGet(o: Setting, policy: Bloom, es: seq<Pair>, k: Bytes, ghost n: nat) returns (size: nat, r: Option<Pair>)
    requires o.interval > 0 && BloomOk(policy) && Ordered(es) && |k| >= 8 && IsFirst(es, k, n)
    ensures size < TWO32 && r.Some? ==> n < |es| && r.value == es[n]
    ensures size < TWO32 && n < |es| && UserOf(es[n].key) == UserOf(k) ==> r == Some(es[n])
  {
    var file, filterHandle, indexHandle;
    ghost var t, filters, groups;
    file, filterHandle, indexHandle, t, filters, groups := BuildTable(o, policy, es);
    size, r := |file|, None;
    if size >= TWO32 {
      return;
    }
    r := OpenThenGet(o, policy, file, filterHandle, indexHandle, k, t, filters, groups, n);
  }

  /** Table::Open and ReadMeta from the handles on, and InternalGet. */
  method OpenThenGet(o: Setting, policy: Bloom, file: Bytes, filterHandle: Handle, indexHandle: Handle, k: Bytes,
                     ghost t: Spec, ghost filters: seq<Bytes>, ghost groups: seq<seq<Bytes>>, ghost n: nat)
    returns (r: Option<Pair>)
    requires o.interval > 0 && |file| < TWO32 && t in Tables(o.c, file, o.interval)
    requires Stored(o.c, file, indexHandle, BlockBytes(IndexPairs(t), 1))
    requires o.usesFilter ==> FilterStored(o.c, file, filterHandle, policy, t, filters, groups)
    requires |k| >= 8 && IsFirst(t.es, k, n)
    ensures r.Some? ==> n < |t.es| && r.value == t.es[n]
    ensures n < |t.es| && UserOf(t.es[n].key) == UserOf(k) ==> r == Some(t.es[n])
  {
    ReadBlockIsExact(o.c, file, indexHandle, BlockBytes(IndexPairs(t), 1));
    var index := ReadBlock(o.c, file, indexHandle);
    var use := NoFilter;
    if o.usesFilter {
      ReadBlockIsExact(o.c, file, filterHandle, FilterBytes(filters));
      var filter := ReadBlock(o.c, file, filterHandle);
      use := UseFilter(policy, filter.value);
    }
    forall i | 0 <= i < |t.handles| ensures t.handles[i].size < TWO32 {
      assert BlockOk(o.c, file, o.interval, t, i);
    }
    r := InternalGet(o.c, file, index.value, use, k, t, o.interval, filters, groups, n);
  }
}
