/** table/block.cc: reading a block, in both directions and by key. */
module BlockIter {
  import opened Keys
  import opened Coding
  import opened Block

  // What a reader relies on

  /** Where the entries of a block start, the last number being where they end; which entries the
      restart points are; how much of the key before each entry shares. */
  datatype Layout = Layout(offs: seq<nat>, starts: seq<nat>, shared: seq<nat>)

  /** Entry `i` can be read where the layout says. */
  ghost predicate EntryLaid(data: Bytes, restarts: nat, l: Layout, es: seq<Pair>, i: nat)
    requires |l.offs| == |es| + 1 && |l.shared| == |es| && i < |es|
  {
    var (key, value, shared, end) := (es[i].key, es[i].value, l.shared[i], l.offs[i + 1]);
    && l.offs[i] < end <= restarts <= |data| && shared <= |key|
    && var keyAt := end - |value| - (|key| - shared);
    && l.offs[i] <= keyAt
    && DecodeEntry(data[l.offs[i]..restarts]) == Some(Header(shared, |key| - shared, |value|, keyAt - l.offs[i]))
    && data[keyAt..keyAt + (|key| - shared)] == key[shared..]
    && data[end - |value|..end] == value
    && (shared > 0 ==> i > 0 && shared <= |es[i - 1].key| && es[i - 1].key[..shared] == key[..shared])
  }

  ghost predicate StartLaid(data: Bytes, restarts: nat, l: Layout, n: nat, r: nat)
    requires r < |l.starts| && |l.offs| == n + 1 && |l.shared| == n
  {
    && l.starts[r] <= n && (r > 0 ==> l.starts[r] < n) && (l.starts[r] < n ==> l.shared[l.starts[r]] == 0)
    && restarts + 4 * r + 4 <= |data| && DecodeFixed32(data[restarts + 4 * r..]) == l.offs[l.starts[r]]
  }

  ghost predicate Laid(data: Bytes, restarts: nat, l: Layout, es: seq<Pair>) {
    && |l.offs| == |es| + 1 && |l.shared| == |es| && |l.starts| > 0
    && l.offs[0] == 0 && l.offs[|es|] == restarts
    && (forall i, j :: 0 <= i < j <= |es| ==> l.offs[i] < l.offs[j])
    && (forall i :: 0 <= i < |es| ==> EntryLaid(data, restarts, l, es, i))
    && l.starts[0] == 0
    && (forall r :: 0 <= r < |l.starts| ==> StartLaid(data, restarts, l, |es|, r))
    && |data| == restarts + 4 * |l.starts| + 4 && DecodeFixed32(data[|data| - 4..]) == |l.starts|
  }

  // The order of the keys

  ghost predicate Transitive(lt: (Bytes, Bytes) -> bool) {
    forall a, b, c :: lt(a, b) && lt(b, c) ==> lt(a, c)
  }

  ghost predicate Increasing(es: seq<Pair>, lt: (Bytes, Bytes) -> bool) {
    forall i, j :: 0 <= i < j < |es| ==> lt(es[i].key, es[j].key)
  }

  // The iterator

  datatype Cursor = Cursor(current: nat, restartIndex: nat, key: Bytes, valueAt: nat, valueLength: nat)

  /** The cursor of an iterator that stands at entry `i`, or, for `i == |es|`, at none. */
  ghost predicate StandsAt(c: Cursor, l: Layout, es: seq<Pair>, i: nat)
    requires |l.offs| == |es| + 1
  {
    && i <= |es| && c.current == l.offs[i]
    && if i == |es| then c.restartIndex == |l.starts|
       else
         && c.restartIndex < |l.starts|
         && c.key == es[i].key && c.valueLength == |es[i].value| && c.valueAt + c.valueLength == l.offs[i + 1]
  }

  /** Parsing will give entry `i`: the value ends where it starts, and the key it shares with is there. */
  ghost predicate Ready(c: Cursor, l: Layout, es: seq<Pair>, i: nat)
    requires |l.offs| == |es| + 1 && |l.shared| == |es|
  {
    && i <= |es| && c.valueAt + c.valueLength == l.offs[i] && c.restartIndex < |l.starts|
    && (0 < i < |es| && l.shared[i] > 0 ==> c.key == es[i - 1].key)
  }

  class Iter {
    const data: Bytes
    const restarts: nat
    const numRestarts: nat
    const lt: (Bytes, Bytes) -> bool
    var current: nat
    var restartIndex: nat
    var key: Bytes
    var valueAt: nat
    var valueLength: nat
    ghost const es: seq<Pair>
    ghost const l: Layout
    ghost var pos: nat

    function State(): Cursor
      reads this
    {
      Cursor(current, restartIndex, key, valueAt, valueLength)
    }

    ghost predicate Made() {
      Laid(data, restarts, l, es) && numRestarts == |l.starts|
    }

    ghost predicate Valid()
      reads this
    {
      Made() && StandsAt(State(), l, es, pos)
    }

    /** Block::Block and NewIterator. */
    constructor (contents: Bytes, lt: (Bytes, Bytes) -> bool, ghost es: seq<Pair>, ghost l: Layout, ghost end: nat)
      requires Laid(contents, end, l, es)
      ensures Valid() && pos == |es| && this.es == es && this.l == l && this.lt == lt && data == contents
    {
      var n: nat := DecodeFixed32(contents[|contents| - 4..]);
      data := contents;
      numRestarts := n;
      restarts := |contents| - (1 + n) * 4;
      this.lt := lt;
      current, restartIndex, key, valueAt, valueLength := |contents| - (1 + n) * 4, n, [], 0, 0;
      this.es, this.l, pos := es, l, |es|;
    }

    predicate IsValid()
      reads this
    {
      current < restarts
    }

    /** Standing at entry `pos` is being valid, with that entry's key and value. */
    lemma Entry()
      requires Valid()
      ensures IsValid() <==> pos < |es|
      ensures IsValid() ==> key == es[pos].key && valueAt + valueLength <= |data| && data[valueAt..valueAt + valueLength] == es[pos].value
    {
      if pos < |es| {
        assert EntryLaid(data, restarts, l, es, pos);
      }
    }

    method GetRestartPoint(index: nat) returns (offset: nat)
      requires Made() && index < numRestarts
      ensures StartLaid(data, restarts, l, |es|, index) && offset == l.offs[l.starts[index]]
    {
      assert StartLaid(data, restarts, l, |es|, index);
      offset := DecodeFixed32(data[restarts + 4 * index..]);
    }

    method SeekToRestartPoint(index: nat)
      requires Made() && index < numRestarts
      modifies this
      ensures StartLaid(data, restarts, l, |es|, index) && Ready(State(), l, es, l.starts[index])
    {
      key := [];
      restartIndex := index;
      valueAt := GetRestartPoint(index);
      valueLength := 0;
    }

    /** DecodeEntry, and the key bytes and the value it points to. */
    method ReadEntry(offset: nat, ghost i: nat) returns (shared: nat, delta: Bytes, at: nat, length: nat)
      requires Made() && i < |es| && offset == l.offs[i]
      ensures shared == l.shared[i] <= |es[i].key| && delta == es[i].key[shared..]
      ensures length == |es[i].value| && at + length == l.offs[i + 1]
      ensures shared > 0 ==> i > 0 && shared <= |es[i - 1].key| && es[i - 1].key[..shared] == es[i].key[..shared]
    {
      Parsed(data, restarts, l, es, i);
      var header := DecodeEntry(data[offset..restarts]);
      if header.None? {
        assert false;
        return;
      }
      shared, length := header.value.shared, header.value.valueLength;
      at := offset + header.value.at + header.value.nonShared;
      delta := data[offset + header.value.at..at];
    }

    /** Gives entry `i`, or, at the end, none. */
    method ParseNextKey(ghost i: nat) returns (ok: bool)
      requires Made() && Ready(State(), l, es, i)
      modifies this
      ensures StandsAt(State(), l, es, i) && pos == i && ok == (i < |es|)
    {
      current := valueAt + valueLength;
      pos := i;
      if current >= restarts {
        current := restarts;
        restartIndex := numRestarts;
        return false;
      }
      var shared, delta;
      shared, delta, valueAt, valueLength := ReadEntry(current, i);
      if |key| < shared {
        assert false;
        return false;
      }
      KeyIs(key, es[i].key, shared, delta);
      key := key[..shared] + delta;
      SkipRestarts();
      ok := true;
    }

    /** The loop of ParseNextKey that keeps the restart index up. */
    method SkipRestarts()
      requires Made() && restartIndex < numRestarts
      modifies this`restartIndex
      ensures restartIndex < numRestarts
    {
      while restartIndex + 1 < numRestarts
        invariant restartIndex < numRestarts
      {
        var next := GetRestartPoint(restartIndex + 1);
        if next >= current {
          break;
        }
        restartIndex := restartIndex + 1;
      }
    }

    method Next()
      requires Valid() && IsValid()
      modifies this
      ensures Valid() && pos == old(pos) + 1
    {
      var _ := ParseNextKey(pos + 1);
    }

    /** Steps back to the last restart point before `original`, if there is one. */
    method RestartBefore(original: nat) returns (found: bool)
      requires Made() && restartIndex < numRestarts
      modifies this`restartIndex
      ensures restartIndex < numRestarts && StartLaid(data, restarts, l, |es|, restartIndex)
      ensures found == (l.offs[l.starts[restartIndex]] < original)
      ensures !found ==> restartIndex == 0
    {
      var point := GetRestartPoint(restartIndex);
      while point >= original
        invariant restartIndex < numRestarts && StartLaid(data, restarts, l, |es|, restartIndex)
        invariant point == l.offs[l.starts[restartIndex]]
        decreases restartIndex
      {
        if restartIndex == 0 {
          return false;
        }
        restartIndex := restartIndex - 1;
        point := GetRestartPoint(restartIndex);
      }
      found := true;
    }

    /** The entry before, or none before the first. */
    method Prev()
      requires Valid() && IsValid()
      modifies this
      ensures Valid() && pos == if old(pos) == 0 then |es| else old(pos) - 1
    {
      ghost var from := pos;
      var original := current;
      var found := RestartBefore(original);
      if !found {
        current := restarts;
        restartIndex := numRestarts;
        pos := |es|;
        return;
      }
      ghost var i := l.starts[restartIndex];
      SeekToRestartPoint(restartIndex);
      var more := ParseNextKey(i);
      while more && valueAt + valueLength < original
        invariant StandsAt(State(), l, es, i) && pos == i < from && more
        decreases from - i
      {
        i := i + 1;
        more := ParseNextKey(i);
      }
    }

    method SeekToFirst()
      requires Valid()
      modifies this
      ensures Valid() && pos == 0
    {
      SeekToRestartPoint(0);
      var _ := ParseNextKey(0);
    }

    method SeekToLast()
      requires Valid()
      modifies this
      ensures Valid() && pos == if es == [] then 0 else |es| - 1
    {
      SeekToRestartPoint(numRestarts - 1);
      ghost var i := l.starts[numRestarts - 1];
      var more := ParseNextKey(i);
      while more && valueAt + valueLength < restarts
        invariant StandsAt(State(), l, es, i) && pos == i <= |es| && more == (i < |es|) && (i == |es| ==> es == [])
        decreases |es| - i
      {
        i := i + 1;
        more := ParseNextKey(i);
      }
    }

    /** The binary search over the restart points: every entry before the one it finds is before
        the target. */
    method FindRestart(target: Bytes) returns (left: nat)
      requires Made()
      ensures left < numRestarts && StartLaid(data, restarts, l, |es|, left)
      ensures left > 0 ==> lt(es[l.starts[left]].key, target)
    {
      var right := numRestarts - 1;
      left := 0;
      while left < right
        invariant left <= right < numRestarts
        invariant left > 0 ==> StartLaid(data, restarts, l, |es|, left) && lt(es[l.starts[left]].key, target)
        decreases right - left
      {
        var mid := (left + right + 1) / 2;
        var regionOffset := GetRestartPoint(mid);
        var shared, midKey, _, _ := ReadEntry(regionOffset, l.starts[mid]);
        if shared != 0 {
          assert false;
          return;
        }
        if lt(midKey, target) {
          left := mid;
        } else {
          right := mid - 1;
        }
      }
      assert StartLaid(data, restarts, l, |es|, left);
    }

    /** The first entry that is not before the target. */
    method Seek(target: Bytes)
      requires Valid() && Transitive(lt) && Increasing(es, lt)
      modifies this
      ensures Valid() && forall i :: 0 <= i < |es| ==> (lt(es[i].key, target) <==> i < pos)
    {
      var left := FindRestart(target);
      SeekToRestartPoint(left);
      ghost var i := l.starts[left];
      AllBefore(es, lt, i, target);
      while true
        invariant i <= |es| && Ready(State(), l, es, i)
        invariant forall j :: 0 <= j < i ==> lt(es[j].key, target)
        decreases |es| - i
      {
        var more := ParseNextKey(i);
        if !more {
          return;
        }
        if !lt(key, target) {
          NoneBefore(es, lt, i, target);
          return;
        }
        i := i + 1;
      }
    }
  }

  /** What decoding entry `i` gives. */
  lemma Parsed(data: Bytes, restarts: nat, l: Layout, es: seq<Pair>, i: nat)
    requires Laid(data, restarts, l, es) && i < |es|
    ensures l.offs[i] <= restarts <= |data| && l.shared[i] <= |es[i].key|
    ensures l.shared[i] > 0 ==> i > 0 && l.shared[i] <= |es[i - 1].key| && es[i - 1].key[..l.shared[i]] == es[i].key[..l.shared[i]]
    ensures match DecodeEntry(data[l.offs[i]..restarts])
            case None => false
            case Some(h) =>
              && h.shared == l.shared[i] && h.valueLength == |es[i].value|
              && l.offs[i] + h.at + h.nonShared + h.valueLength == l.offs[i + 1] <= |data|
              && data[l.offs[i] + h.at..l.offs[i] + h.at + h.nonShared] == es[i].key[l.shared[i]..]
  {
    assert EntryLaid(data, restarts, l, es, i);
  }

  lemma KeyIs(before: Bytes, key: Bytes, shared: nat, delta: Bytes)
    requires shared <= |before| && shared <= |key| && delta == key[shared..] && (shared > 0 ==> before[..shared] == key[..shared])
    ensures before[..shared] + delta == key
  {
    assert shared == 0 ==> before[..shared] == [];
  }

  lemma AllBefore(es: seq<Pair>, lt: (Bytes, Bytes) -> bool, i: nat, target: Bytes)
    requires Transitive(lt) && Increasing(es, lt) && i <= |es| && (0 < i < |es| ==> lt(es[i].key, target))
    requires i == |es| ==> i == 0
    ensures forall j :: 0 <= j < i ==> lt(es[j].key, target)
  {
  }

  lemma NoneBefore(es: seq<Pair>, lt: (Bytes, Bytes) -> bool, i: nat, target: Bytes)
    requires Transitive(lt) && Increasing(es, lt) && i < |es| && !lt(es[i].key, target)
    ensures forall j :: i <= j < |es| ==> !lt(es[j].key, target)
  {
  }
}
