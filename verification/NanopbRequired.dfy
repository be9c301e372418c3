/** Messages with fields left out: what pb_decode makes of them, and which of them it rejects. */
module NanopbRequired {
  import opened Keys
  import opened Nanopb
  import opened NanopbProofs

  /** What is written of the fields from index `i` on when some are left out. */
  function WireWithout(d: Desc, slots: seq<Slot>, omitted: set<nat>, i: nat): Bytes
    decreases |d.fields| - i
  {
    if i >= |d.fields| || i >= |slots| then []
    else (if i in omitted then [] else WireField(d.fields[i], slots[i])) + WireWithout(d, slots, omitted, i + 1)
  }

  /** The message with those fields as they are by default. */
  function Reset(d: Desc, slots: seq<Slot>, omitted: set<nat>): seq<Slot>
    requires |slots| == |d.fields|
  {
    seq(|slots|, i requires 0 <= i < |slots| => if i in omitted then DefaultSlot(d.fields[i]) else slots[i])
  }

  ghost predicate RequiredAt(d: Desc, i: nat) {
    i < |d.fields| && d.fields[i].rule.Required?
  }

  /** The required fields seen, by their index among the required ones. */
  function SeenFrom(d: Desc, omitted: set<nat>, i: nat, seen: set<nat>): set<nat>
    requires i <= |d.fields|
    decreases |d.fields| - i
  {
    if i == |d.fields| then seen
    else SeenFrom(d, omitted, i + 1, if i in omitted then seen else Mark(d, i, seen))
  }

  lemma ResetStep(d: Desc, slots: seq<Slot>, omitted: set<nat>, i: nat, tail: Bytes, seen: set<nat>)
    requires DescOk(d) && MessageIn(d, slots, true) && i < |slots|
    ensures DecodeLoop(d, (if i in omitted then [] else WireField(d.fields[i], slots[i])) + tail, Partly(d, Reset(d, slots, omitted), i), seen)
         == DecodeLoop(d, tail, Partly(d, Reset(d, slots, omitted), i + 1), if i in omitted then seen else Mark(d, i, seen))
  {
    var reset := Reset(d, slots, omitted);
    if i in omitted {
      assert [] + tail == tail;
      assert Partly(d, reset, i) == Partly(d, reset, i + 1);
    } else {
      assert SlotIn(d.fields[i], slots[i], true);
      forall j | 0 <= j < |slots| && d.fields[j].rule.Oneof? ensures reset[j] == slots[j] || reset[j] == Maybe(None) {
      }
      FieldStep(d, reset, i, tail, seen);
    }
  }

  lemma {:induction false} ResetChain(d: Desc, slots: seq<Slot>, omitted: set<nat>, i: nat, seen: set<nat>)
    requires DescOk(d) && MessageIn(d, slots, true) && i <= |slots|
    ensures DecodeLoop(d, WireWithout(d, slots, omitted, i), Partly(d, Reset(d, slots, omitted), i), seen)
         == Some((Reset(d, slots, omitted), SeenFrom(d, omitted, i, seen)))
    decreases |slots| - i
  {
    var reset := Reset(d, slots, omitted);
    if i == |slots| {
      assert Partly(d, reset, i) == reset;
    } else {
      ResetStep(d, slots, omitted, i, WireWithout(d, slots, omitted, i + 1), seen);
      ResetChain(d, slots, omitted, i + 1, if i in omitted then seen else Mark(d, i, seen));
    }
  }

  /** A required field left out is not among those seen ... */
  lemma {:induction false} OmittedUnseen(d: Desc, omitted: set<nat>, i: nat, seen: set<nat>, k: nat)
    requires i <= |d.fields| && k in omitted && RequiredAt(d, k) && RequiredBefore(d.fields, k) !in seen
    ensures RequiredBefore(d.fields, k) !in SeenFrom(d, omitted, i, seen)
    decreases |d.fields| - i
  {
    if i < |d.fields| {
      if i < k {
        RequiredGrows(d.fields, i + 1, k);
      } else if i > k {
        RequiredGrows(d.fields, k + 1, i);
      }
      OmittedUnseen(d, omitted, i + 1, if i in omitted then seen else Mark(d, i, seen), k);
    }
  }

  /** ... and if none is, all of them are. */
  lemma {:induction false} AllAreSeen(d: Desc, omitted: set<nat>, i: nat)
    requires DescOk(d) && i <= |d.fields| && forall k :: k in omitted ==> !RequiredAt(d, k)
    ensures SeenFrom(d, omitted, i, SeenBefore(d, i)) == SeenBefore(d, |d.fields|)
    decreases |d.fields| - i
  {
    if i < |d.fields| {
      SeenStep(d, i);
      assert i in omitted ==> SeenBefore(d, i + 1) == SeenBefore(d, i);
      AllAreSeen(d, omitted, i + 1);
    }
  }

  /** pb_decode from the defaults, once the loop is known. */
  lemma AfterLoop(d: Desc, b: Bytes, m: seq<Slot>, seen: set<nat>)
    requires DecodeLoop(d, b, Defaults(d), {}) == Some((m, seen))
    ensures DecodeMessage(d, b, Defaults(d))
         == if forall i :: 0 <= i < RequiredBefore(d.fields, |d.fields|) ==> i in seen then Some(m) else None
  {
  }

  /** Whatever fields of a message are left out of its encoding: pb_decode fails exactly when a
      required one is among them, and otherwise gives the message with those fields at their
      defaults. */
  lemma DecodeWithout(d: Desc, slots: seq<Slot>, omitted: set<nat>)
    requires DescOk(d) && MessageIn(d, slots, true)
    ensures DecodeMessage(d, WireWithout(d, slots, omitted, 0), Defaults(d))
         == if exists k :: k in omitted && RequiredAt(d, k) then None else Some(Reset(d, slots, omitted))
  {
    var b, seen := WireWithout(d, slots, omitted, 0), SeenFrom(d, omitted, 0, {});
    LoopWithout(d, slots, omitted);
    AfterLoop(d, b, Reset(d, slots, omitted), seen);
    AllSeenIff(d, omitted);
  }

  lemma AllSeenIff(d: Desc, omitted: set<nat>)
    requires DescOk(d)
    ensures (forall i :: 0 <= i < RequiredBefore(d.fields, |d.fields|) ==> i in SeenFrom(d, omitted, 0, {}))
       <==> !exists k :: k in omitted && RequiredAt(d, k)
  {
    if k: nat :| k in omitted && RequiredAt(d, k) {
      OmittedUnseen(d, omitted, 0, {}, k);
      RequiredGrows(d.fields, k + 1, |d.fields|);
    } else {
      assert SeenBefore(d, 0) == {};
      AllAreSeen(d, omitted, 0);
    }
  }

  lemma LoopWithout(d: Desc, slots: seq<Slot>, omitted: set<nat>)
    requires DescOk(d) && MessageIn(d, slots, true)
    ensures DecodeLoop(d, WireWithout(d, slots, omitted, 0), Defaults(d), {})
         == Some((Reset(d, slots, omitted), SeenFrom(d, omitted, 0, {})))
  {
    assert Partly(d, Reset(d, slots, omitted), 0) == Defaults(d);
    ResetChain(d, slots, omitted, 0, {});
  }
}
