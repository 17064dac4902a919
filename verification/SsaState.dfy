/**
 The state of the SSA pass and its invariants: how pending values at branch
 targets account for the values at jumps, and what an active loop keeps.
 */
module SsaState {
  import opened Bytecode
  import opened SsaValues

  /** What the earlier passes found out about the script. */
  datatype Context = Context(code: Script, reached: seq<bool>, loops: map<nat, nat>, tracked: seq<bool>) {
    predicate Track(s: nat) {
      s < |tracked| && tracked[s]
    }

    ghost predicate Valid() {
      ReachClosed(code, reached) && StructuredLoops(code, reached, loops)
    }

    ghost predicate WrittenIn(h: nat, s: nat)
      requires h in loops
    {
      |reached| == |code| && WrittenBetween(code, reached, s, h, loops[h])
    }

    /**
     The initial value of slot s is forgotten: the script starts with the head of
     a loop that writes the slot, and nothing falls into that head.
     */
    ghost predicate Forgets(s: nat) {
      0 in loops && WrittenIn(0, s)
    }

    /** v is a value of slot s: its initial value, unless that is forgotten, a reached write to it, or a phi node for it. */
    ghost predicate Typed(phis: seq<PhiNode>, v: SsaValue, s: nat) {
      match v
      case Initial(x) => x == s && !Forgets(s)
      case Written(x, o) => x == s && o < |code| && o < |reached| && reached[o] && Writes(code[o], s)
      case Phi(_, n) => n < |phis| && phis[n].slot == s
      case _ => false
    }

    /** Options are values of the node's slot, and the first nine of them differ. */
    ghost predicate PhisOk(phis: seq<PhiNode>) {
      && (forall n :: 0 <= n < |phis| ==> DistinctAtFirst(phis[n].options))
      && forall n, i :: 0 <= n < |phis| && 0 <= i < |phis[n].options| ==> Typed(phis, phis[n].options[i], phis[n].slot)
    }
  }

  datatype State = State(
    values: seq<SsaValue>,
    branchSize: seq<nat>,
    branchTargets: seq<nat>,
    pending: map<nat, seq<SlotValue>>,
    phis: seq<PhiNode>,
    ins: map<nat, seq<SsaValue>>,
    outs: map<nat, seq<SsaValue>>,
    branches: set<(nat, nat)>)

  ghost predicate HasEntry(list: seq<SlotValue>, s: nat) {
    exists i :: 0 <= i < |list| && list[i].slot == s
  }

  /** The list with an entry for the slot, added at the end if there was none. */
  ghost function WithEntry(list: seq<SlotValue>, s: nat, v: SsaValue): (r: seq<SlotValue>)
    ensures HasEntry(r, s)
  {
    if HasEntry(list, s) then list
    else
      var r := list + [SlotValue(s, v)];
      assert r[|list|].slot == s;
      r
  }

  /** Mark the slot's value at every branch target beyond `cut`. */
  ghost function MarkAll(pending: map<nat, seq<SlotValue>>, targets: seq<nat>, s: nat, v: SsaValue, cut: int)
    : map<nat, seq<SlotValue>>
  {
    map t | t in pending :: if t in targets && t > cut then WithEntry(pending[t], s, v) else pending[t]
  }

  lemma {:induction false} MarkNone(pending: map<nat, seq<SlotValue>>, targets: seq<nat>, s: nat, v: SsaValue, cut: int)
    ensures MarkAll(pending, targets[|targets|..], s, v, cut) == pending
  {
  }

  lemma {:induction false} MarkOne(pending: map<nat, seq<SlotValue>>, targets: seq<nat>, i: nat, s: nat, v: SsaValue, cut: int)
    requires i < |targets| && (targets[i] > cut ==> targets[i] in pending)
    ensures MarkAll(pending, targets[i..], s, v, cut)
         == var rest := MarkAll(pending, targets[i + 1..], s, v, cut);
            if targets[i] > cut then rest[targets[i] := WithEntry(rest[targets[i]], s, v)] else rest
  {
    assert targets[i..] == [targets[i]] + targets[i + 1..];
  }

  /** Targets that have an entry for the slot need no marking. */
  lemma {:induction false} MarkSkipped(pending: map<nat, seq<SlotValue>>, targets: seq<nat>, n: nat, s: nat, v: SsaValue, cut: int)
    requires n <= |targets|
    requires forall i :: 0 <= i < n && targets[i] > cut ==> targets[i] in pending && HasEntry(pending[targets[i]], s)
    ensures MarkAll(pending, targets, s, v, cut) == MarkAll(pending, targets[n..], s, v, cut)
  {
  }

  /** The current value of a slot is one of its values; before the first operation it may be a forgotten initial value. */
  ghost predicate Current(c: Context, st: State, s: nat)
    requires s < |st.values|
  {
    c.Typed(st.phis, st.values[s], s) || (st.ins == map[] && st.branchTargets == [] && st.values[s] == Initial(s))
  }

  ghost predicate ValuesTyped(c: Context, st: State)
    requires |st.values| == |c.tracked|
  {
    forall s: nat :: c.Track(s) ==> c.Typed(st.phis, st.values[s], s)
  }

  ghost predicate Shape(c: Context, st: State) {
    && |st.values| == |st.branchSize| == |c.tracked|
    && c.PhisOk(st.phis)
    && (forall s: nat :: c.Track(s) ==> Current(c, st, s) && st.branchSize[s] <= |st.branchTargets|)
    && (forall t, i :: t in st.pending && 0 <= i < |st.pending[t]| ==>
          c.Track(st.pending[t][i].slot) && c.Typed(st.phis, st.pending[t][i].value, st.pending[t][i].slot))
    && (forall o :: o in st.ins ==> |st.ins[o]| == |c.tracked|)
    && (forall o :: o in st.outs ==> |st.outs[o]| == |c.tracked|)
  }

  /** All entries for slot s in the list account for value v. */
  ghost predicate Absorbs(phis: seq<PhiNode>, list: seq<SlotValue>, s: nat, v: SsaValue) {
    forall i :: 0 <= i < |list| && list[i].slot == s ==> Flows(phis, v, list[i].value)
  }

  /**
   The lazy bookkeeping at branch targets beyond `cut`: for each of them and
   each tracked slot, either the pending entries account for the slot's value at
   every jump to the target so far, or the slot is unchanged since those jumps.
   */
  ghost predicate Bookkeeping(c: Context, st: State, cut: int)
    requires Shape(c, st)
  {
    && (forall o, t :: (o, t) in st.branches && t > cut ==> o in st.outs && t in st.pending && t in st.branchTargets)
    && (forall o, t, s: nat :: (o, t) in st.branches && t > cut && c.Track(s) ==>
          && Absorbs(st.phis, st.pending[t], s, st.outs[o][s])
          && (HasEntry(st.pending[t], s) || st.outs[o][s] == st.values[s]))
  }

  /** Branch targets have pending entries for the slots whose `branchSize` is past them. */
  ghost predicate Threshold(c: Context, st: State, cut: int)
    requires Shape(c, st)
  {
    && (forall i :: 0 <= i < |st.branchTargets| && st.branchTargets[i] > cut ==> st.branchTargets[i] in st.pending)
    && (forall s: nat, i :: c.Track(s) && 0 <= i < st.branchSize[s] && st.branchTargets[i] > cut ==>
          HasEntry(st.pending[st.branchTargets[i]], s))
  }

  /** Targets beyond the cut can be marked, and the first n of them have an entry for slot s. */
  ghost predicate MarkedBelow(pending: map<nat, seq<SlotValue>>, targets: seq<nat>, n: nat, s: nat, cut: int) {
    n <= |targets|
    && (forall i :: 0 <= i < |targets| && targets[i] > cut ==> targets[i] in pending)
    && (forall i :: 0 <= i < n && targets[i] > cut ==> HasEntry(pending[targets[i]], s))
  }

  lemma {:induction false} ThresholdMarked(c: Context, st: State, s: nat, cut: int)
    requires Shape(c, st) && Threshold(c, st, cut) && c.Track(s)
    ensures s < |st.values| == |st.branchSize| && MarkedBelow(st.pending, st.branchTargets, st.branchSize[s], s, cut)
  {
  }

  /** The head of an active loop holds in its pending entries the loop phi of a slot that the loop writes. */
  ghost predicate LoopPhi(st: State, h: nat, s: nat)
    requires h in st.pending && h in st.ins && s < |st.ins[h]|
  {
    st.ins[h][s].Phi? && st.ins[h][s].offset == h && SlotValue(s, st.ins[h][s]) in st.pending[h]
  }

  /** All entries for slot s pending in [lo, hi] are v. */
  ghost predicate OnlyPending(st: State, s: nat, lo: nat, hi: nat, v: SsaValue) {
    forall t, i :: t in st.pending && lo <= t <= hi && 0 <= i < |st.pending[t]| && st.pending[t][i].slot == s ==>
      st.pending[t][i].value == v
  }

  /** What the pass keeps for the loop with head h while its operations from `cur` on are pending. */
  ghost predicate LoopKept(c: Context, st: State, h: nat, cur: nat)
    requires Shape(c, st) && h in c.loops
  {
    && h in st.pending && h in st.ins
    && forall s: nat :: c.Track(s) ==>
         if c.WrittenIn(h, s) then LoopPhi(st, h, s)
         else st.values[s] == st.ins[h][s] && OnlyPending(st, s, cur, c.loops[h], st.ins[h][s])
  }

  ghost predicate ActiveLoops(c: Context, st: State, cur: nat)
    requires Shape(c, st)
  {
    forall h :: h in c.loops && h < cur <= c.loops[h] ==> LoopKept(c, st, h, cur)
  }

  // ------------------------------------------------------------------ preservation

  lemma {:induction false} GrowShape(c: Context, st: State, phis: seq<PhiNode>)
    requires Shape(c, st) && Grows(st.phis, phis) && c.PhisOk(phis)
    ensures Shape(c, st.(phis := phis))
  {
  }

  lemma {:induction false} GrowBookkeeping(c: Context, st: State, phis: seq<PhiNode>, cut: int)
    requires Shape(c, st) && Bookkeeping(c, st, cut) && Grows(st.phis, phis) && c.PhisOk(phis)
    ensures Shape(c, st.(phis := phis)) && Bookkeeping(c, st.(phis := phis), cut)
  {
    FlowsGrow(st.phis, phis);
  }

  lemma {:induction false} GrowLoops(c: Context, st: State, phis: seq<PhiNode>, cur: nat)
    requires Shape(c, st) && ActiveLoops(c, st, cur) && Grows(st.phis, phis) && c.PhisOk(phis)
    ensures Shape(c, st.(phis := phis)) && ActiveLoops(c, st.(phis := phis), cur)
  {
  }

  /** The state after the slot's value is marked at all branch targets beyond `cut` and then replaced. */
  ghost function Assign(st: State, s: nat, v: SsaValue, cut: int): State
    requires s < |st.values| == |st.branchSize|
  {
    st.(pending := MarkAll(st.pending, st.branchTargets, s, st.values[s], cut),
        branchSize := st.branchSize[s := |st.branchTargets|],
        values := st.values[s := v])
  }

  lemma {:induction false} AssignShape(c: Context, st: State, s: nat, v: SsaValue, cut: int)
    requires Shape(c, st) && c.Track(s) && c.Typed(st.phis, v, s)
    ensures Shape(c, Assign(st, s, v, cut))
  {
    hide MarkAll;
    var st' := Assign(st, s, v, cut);
    forall t: nat, i: nat | t in st'.pending && i < |st'.pending[t]|
      ensures c.Track(st'.pending[t][i].slot) && c.Typed(st.phis, st'.pending[t][i].value, st'.pending[t][i].slot)
    {
      MarkedEntry(c, st, s, v, cut, t, i, st');
    }
  }

  lemma {:induction false} MarkedEntry(c: Context, st: State, s: nat, v: SsaValue, cut: int, t: nat, i: nat, st': State)
    requires Shape(c, st) && c.Track(s) && st' == Assign(st, s, v, cut) && t in st'.pending && i < |st'.pending[t]|
    ensures c.Track(st'.pending[t][i].slot) && c.Typed(st.phis, st'.pending[t][i].value, st'.pending[t][i].slot)
  {
    MarkedAt(st, s, v, cut, t, st');
    if i < |st.pending[t]| {
      assert st'.pending[t][i] == st.pending[t][i];
    } else {
      assert st'.pending[t][i] == SlotValue(s, st.values[s]);
      assert Current(c, st, s);
    }
  }

  lemma {:induction false} MarkedAt(st: State, s: nat, v: SsaValue, cut: int, t: nat, st': State)
    requires s < |st.values| == |st.branchSize| && st' == Assign(st, s, v, cut)
    ensures t in st'.pending <==> t in st.pending
    ensures t in st.pending ==>
              st'.pending[t] == if t in st.branchTargets && t > cut then WithEntry(st.pending[t], s, st.values[s]) else st.pending[t]
  {
  }

  lemma {:induction false} AbsorbsWith(phis: seq<PhiNode>, list: seq<SlotValue>, s: nat, w: SsaValue, x: nat, v: SsaValue)
    requires Absorbs(phis, list, x, v) && (x == s && !HasEntry(list, s) ==> v == w)
    ensures Absorbs(phis, WithEntry(list, s, w), x, v)
    ensures HasEntry(list, x) ==> HasEntry(WithEntry(list, s, w), x)
  {
    FlowsRefl(phis, v);
    if HasEntry(list, x) {
      var i :| 0 <= i < |list| && list[i].slot == x;
      assert WithEntry(list, s, w)[i].slot == x;
    }
  }

  lemma {:induction false} AssignBookkeeping(c: Context, st: State, s: nat, v: SsaValue, cut: int, beyond: int, st': State)
    requires Shape(c, st) && Bookkeeping(c, st, beyond) && c.Track(s) && cut <= beyond
    requires st' == Assign(st, s, v, cut) && Shape(c, st')
    ensures Bookkeeping(c, st', beyond)
  {
    forall o, t, x: nat | (o, t) in st.branches && t > beyond && c.Track(x)
      ensures t in st'.pending && Absorbs(st.phis, st'.pending[t], x, st.outs[o][x])
      ensures HasEntry(st'.pending[t], x) || st.outs[o][x] == st'.values[x]
    {
      MarkedAt(st, s, v, cut, t, st');
      AbsorbsWith(st.phis, st.pending[t], s, st.values[s], x, st.outs[o][x]);
    }
  }

  lemma {:induction false} AssignThreshold(c: Context, st: State, s: nat, v: SsaValue, cut: int)
    requires Shape(c, st) && Threshold(c, st, cut) && c.Track(s)
    requires Shape(c, Assign(st, s, v, cut))
    ensures Threshold(c, Assign(st, s, v, cut), cut)
  {
    EntriesKept(st.pending, Assign(st, s, v, cut).pending);
  }

  lemma {:induction false} AssignLoops(c: Context, st: State, s: nat, v: SsaValue, cut: int, cur: nat, st': State)
    requires Shape(c, st) && ActiveLoops(c, st, cur) && c.Track(s)
    requires st' == Assign(st, s, v, cut) && Shape(c, st')
    requires forall h :: h in c.loops && h < cur <= c.loops[h] && !c.WrittenIn(h, s) ==> v == st.values[s]
    ensures ActiveLoops(c, st', cur)
  {
    forall h | h in c.loops && h < cur <= c.loops[h]
      ensures LoopKept(c, st', h, cur)
    {
      assert LoopKept(c, st, h, cur);
      MarkedAt(st, s, v, cut, h, st');
      assert st.pending[h] <= st'.pending[h];
      forall x: nat | c.Track(x) && !c.WrittenIn(h, x)
        ensures OnlyPending(st', x, cur, c.loops[h], st.ins[h][x])
      {
        AssignOnlyPending(st, s, v, cut, x, cur, c.loops[h], st.ins[h][x], st');
      }
    }
  }

  lemma {:induction false} AssignOnlyPending(st: State, s: nat, v: SsaValue, cut: int, x: nat, lo: nat, hi: nat, w: SsaValue, st': State)
    requires s < |st.values| == |st.branchSize| && st' == Assign(st, s, v, cut)
    requires OnlyPending(st, x, lo, hi, w) && (x == s ==> st.values[s] == w)
    ensures OnlyPending(st', x, lo, hi, w)
  {
    forall t, i | t in st'.pending && lo <= t <= hi && 0 <= i < |st'.pending[t]| && st'.pending[t][i].slot == x
      ensures st'.pending[t][i].value == w
    {
      MarkedAt(st, s, v, cut, t, st');
      if i < |st.pending[t]| {
        assert st'.pending[t][i] == st.pending[t][i];
      }
    }
  }

  /** The state after entry i pending at t is replaced. */
  ghost function SetEntry(st: State, t: nat, i: nat, r: SlotValue): State
    requires t in st.pending && i < |st.pending[t]|
  {
    st.(pending := st.pending[t := st.pending[t][i := r]])
  }

  lemma {:induction false} SetEntryBookkeeping(c: Context, st: State, t: nat, i: nat, r: SlotValue, cut: int)
    requires Shape(c, st) && t in st.pending && i < |st.pending[t]| && r.slot == st.pending[t][i].slot
    requires c.Typed(st.phis, r.value, r.slot) && Flows(st.phis, st.pending[t][i].value, r.value)
    requires Bookkeeping(c, st, cut) && Threshold(c, st, cut)
    ensures Shape(c, SetEntry(st, t, i, r))
    ensures Bookkeeping(c, SetEntry(st, t, i, r), cut) && Threshold(c, SetEntry(st, t, i, r), cut)
  {
    var st' := SetEntry(st, t, i, r);
    SameSlots(st.pending[t], st'.pending[t]);
    assert Shape(c, st');
    forall o, x: nat | (o, t) in st.branches && t > cut && c.Track(x)
      ensures Absorbs(st.phis, st'.pending[t], x, st.outs[o][x])
    {
      if x == r.slot {
        FlowsTrans(st.phis, st.outs[o][x], st.pending[t][i].value, r.value);
      }
    }
  }

  lemma {:induction false} SetEntryLoops(c: Context, st: State, t: nat, i: nat, r: SlotValue, cur: nat)
    requires Shape(c, st) && t in st.pending && i < |st.pending[t]| && cur <= t
    requires Shape(c, SetEntry(st, t, i, r))
    requires ActiveLoops(c, st, cur)
    requires r.slot == st.pending[t][i].slot
    requires forall h :: h in c.loops && h < cur <= c.loops[h] && !c.WrittenIn(h, r.slot) ==> r == st.pending[t][i]
    ensures ActiveLoops(c, SetEntry(st, t, i, r), cur)
  {
    var st' := SetEntry(st, t, i, r);
    forall h | h in c.loops && h < cur <= c.loops[h]
      ensures LoopKept(c, st', h, cur)
    {
      assert LoopKept(c, st, h, cur);
    }
  }

  /** Phi nodes in values are no later than `lim`, and those pending at a target from `cur` on no later than it. */
  ghost predicate Dated(c: Context, st: State, cur: nat, lim: int)
    requires Shape(c, st)
  {
    && (forall s: nat :: c.Track(s) && st.values[s].Phi? ==> st.values[s].offset <= lim)
    && (forall t, i :: t in st.pending && t >= cur && 0 <= i < |st.pending[t]| && st.pending[t][i].value.Phi? ==>
          st.pending[t][i].value.offset <= t)
  }

  /** The invariant of the pass for branch targets beyond `cut` while it is at offset `cur`. */
  ghost predicate Inv(c: Context, st: State, cut: int, cur: nat) {
    Shape(c, st) && Bookkeeping(c, st, cut) && Threshold(c, st, cut) && ActiveLoops(c, st, cur)
  }

  lemma {:induction false} GrowInv(c: Context, st: State, phis: seq<PhiNode>, cut: int, cur: nat)
    requires Inv(c, st, cut, cur) && Grows(st.phis, phis) && c.PhisOk(phis)
    ensures Inv(c, st.(phis := phis), cut, cur)
  {
    GrowShape(c, st, phis);
    GrowBookkeeping(c, st, phis, cut);
    GrowLoops(c, st, phis, cur);
  }

  lemma {:induction false} AssignInv(c: Context, st: State, s: nat, v: SsaValue, cut: int, cur: nat)
    requires Inv(c, st, cut, cur) && c.Track(s) && c.Typed(st.phis, v, s)
    requires forall h :: h in c.loops && h < cur <= c.loops[h] && !c.WrittenIn(h, s) ==> v == st.values[s]
    ensures Inv(c, Assign(st, s, v, cut), cut, cur)
  {
    var st' := Assign(st, s, v, cut);
    AssignShape(c, st, s, v, cut);
    AssignBookkeeping(c, st, s, v, cut, cut, st');
    AssignThreshold(c, st, s, v, cut);
    AssignLoops(c, st, s, v, cut, cur, st');
  }

  lemma {:induction false} AssignDated(c: Context, st: State, s: nat, v: SsaValue, cut: int, cur: nat)
    requires Shape(c, st) && Dated(c, st, cur, cur) && c.Track(s) && cur <= cut + 1
    requires v.Phi? ==> v.offset <= cur
    requires Shape(c, Assign(st, s, v, cut))
    ensures Dated(c, Assign(st, s, v, cut), cur, cur)
  {
    var st' := Assign(st, s, v, cut);
    forall t: nat, i | t in st'.pending && t >= cur && 0 <= i < |st'.pending[t]| && st'.pending[t][i].value.Phi?
      ensures st'.pending[t][i].value.offset <= t
    {
      if i < |st.pending[t]| {
        assert st'.pending[t][i] == st.pending[t][i];
      } else {
        assert st'.pending[t][i] == SlotValue(s, st.values[s]);
      }
    }
  }

  lemma {:induction false} SetEntryInv(c: Context, st: State, t: nat, i: nat, r: SlotValue, cut: int, cur: nat)
    requires Inv(c, st, cut, cur) && t in st.pending && i < |st.pending[t]| && cur <= t
    requires r.slot == st.pending[t][i].slot
    requires c.Typed(st.phis, r.value, r.slot) && Flows(st.phis, st.pending[t][i].value, r.value)
    requires forall h :: h in c.loops && h < cur <= c.loops[h] && !c.WrittenIn(h, r.slot) ==> r == st.pending[t][i]
    ensures Inv(c, SetEntry(st, t, i, r), cut, cur)
  {
    SetEntryBookkeeping(c, st, t, i, r, cut);
    SetEntryLoops(c, st, t, i, r, cur);
  }

  /** The state after a pending entry at the current offset is replaced by r and r is taken over. */
  ghost function TakeEntry(st: State, phis: seq<PhiNode>, offset: nat, i: nat, r: SlotValue, cut: int): State
    requires offset in st.pending && i < |st.pending[offset]| && r.slot < |st.values| == |st.branchSize|
  {
    Assign(SetEntry(st.(phis := phis), offset, i, r), r.slot, r.value, cut)
  }

  lemma {:induction false} TakenAt(st: State, phis: seq<PhiNode>, offset: nat, i: nat, r: SlotValue, cut: int)
    requires offset in st.pending && i < |st.pending[offset]| && r.slot < |st.values| == |st.branchSize|
    ensures TakeEntry(st, phis, offset, i, r, cut).pending.Keys == st.pending.Keys
    ensures TakeEntry(st, phis, offset, i, r, cut).pending[offset] == st.pending[offset][i := r]
  {
    assert HasEntry(st.pending[offset][i := r], r.slot) by { assert st.pending[offset][i := r][i].slot == r.slot; }
  }

  /** Replacing a pending entry at the current offset by r, and then taking r over, keeps the invariant. */
  lemma {:induction false} MergeEntryInv(c: Context, st: State, phis: seq<PhiNode>, offset: nat, i: nat, r: SlotValue, cut: int)
    requires Inv(c, st, cut, offset) && Dated(c, st, offset, offset) && offset <= cut + 1
    requires offset in st.pending && i < |st.pending[offset]| && r.slot == st.pending[offset][i].slot
    requires Grows(st.phis, phis) && c.PhisOk(phis) && c.Typed(phis, r.value, r.slot)
    requires Flows(phis, st.pending[offset][i].value, r.value)
    requires st.values[r.slot] == st.pending[offset][i].value && r != st.pending[offset][i] ==>
               WrittenAround(c, offset, r.slot)
    requires r == st.pending[offset][i] || (r.value.Phi? && r.value.offset == offset)
    ensures Inv(c, SetEntry(st.(phis := phis), offset, i, r), cut, offset)
    ensures Inv(c, TakeEntry(st, phis, offset, i, r, cut), cut, offset)
    ensures Dated(c, TakeEntry(st, phis, offset, i, r, cut), offset, offset)
  {
    hide Bookkeeping, Threshold;
    var st1 := st.(phis := phis);
    GrowInv(c, st, phis, cut, offset);
    forall h | h in c.loops && h < offset <= c.loops[h] && !c.WrittenIn(h, r.slot)
      ensures r == st.pending[offset][i] && r.value == st.values[r.slot]
    {
      assert LoopKept(c, st, h, offset);
    }
    SetEntryInv(c, st1, offset, i, r, cut, offset);
    var st2 := SetEntry(st1, offset, i, r);
    AssignInv(c, st2, r.slot, r.value, cut, offset);
    AssignDated(c, st2, r.slot, r.value, cut, offset);
  }

  /** The entries pending at this offset account for the values at all jumps to it. */
  ghost predicate Arrivals(c: Context, st: State, offset: nat)
    requires Shape(c, st)
  {
    offset in st.pending
    && forall o, s: nat :: (o, offset) in st.branches && c.Track(s) ==>
         o in st.outs && Absorbs(st.phis, st.pending[offset], s, st.outs[o][s])
  }

  /** The listed slots have received the values at all jumps to this offset; others still have their value in v0. */
  ghost predicate Merged(c: Context, st: State, offset: nat, v0: seq<SsaValue>, list: seq<SlotValue>, fall: bool)
    requires Shape(c, st) && |v0| == |c.tracked|
  {
    && (forall s: nat :: c.Track(s) ==> HasEntry(list, s) || st.values[s] == v0[s])
    && (forall s: nat :: c.Track(s) && fall ==> Flows(st.phis, v0[s], st.values[s]))
    && (forall o, s: nat :: (o, offset) in st.branches && c.Track(s) && HasEntry(list, s) ==>
          o in st.outs && Flows(st.phis, st.outs[o][s], st.values[s]))
  }

  /** Every tracked slot has received the values at all jumps to this offset, and its value in v0 if control falls in. */
  ghost predicate Received(c: Context, st: State, offset: nat, v0: seq<SsaValue>, fall: bool)
    requires Shape(c, st) && |v0| == |c.tracked|
  {
    && (forall s: nat :: c.Track(s) && fall ==> Flows(st.phis, v0[s], st.values[s]))
    && (forall o, s: nat :: (o, offset) in st.branches && c.Track(s) ==>
          o in st.outs && Flows(st.phis, st.outs[o][s], st.values[s]))
  }

  lemma {:induction false} HasEntrySnoc(list: seq<SlotValue>, i: nat, s: nat)
    requires i < |list|
    ensures HasEntry(list[..i + 1], s) <==> HasEntry(list[..i], s) || list[i].slot == s
  {
  }

  lemma {:induction false} MergedStep(c: Context, st: State, phis: seq<PhiNode>, offset: nat, i: nat, r: SlotValue, cut: int,
                   v0: seq<SsaValue>, list: seq<SlotValue>, fall: bool, st': State)
    requires Shape(c, st) && |v0| == |c.tracked| && i < |list| && Merged(c, st, offset, v0, list[..i], fall)
    requires Arrivals(c, st, offset) && |list| == |st.pending[offset]|
    requires r.slot == list[i].slot == st.pending[offset][i].slot
    requires Grows(st.phis, phis) && Flows(phis, st.pending[offset][i].value, r.value)
    requires fall ==> Flows(phis, st.values[r.slot], r.value)
    requires st' == TakeEntry(st, phis, offset, i, r, cut) && Shape(c, st')
    ensures Merged(c, st', offset, v0, list[..i + 1], fall)
  {
    FlowsGrow(st.phis, phis);
    forall s: nat | c.Track(s)
      ensures HasEntry(list[..i + 1], s) <==> HasEntry(list[..i], s) || list[i].slot == s
    {
      HasEntrySnoc(list, i, s);
    }
    if fall {
      FlowsTrans(phis, v0[r.slot], st.values[r.slot], r.value);
    }
    forall o | (o, offset) in st.branches
      ensures o in st.outs && Flows(phis, st.outs[o][r.slot], r.value)
    {
      assert Absorbs(st.phis, st.pending[offset], r.slot, st.outs[o][r.slot]);
      FlowsTrans(phis, st.outs[o][r.slot], st.pending[offset][i].value, r.value);
    }
  }

  lemma {:induction false} ArrivalsStep(c: Context, st: State, phis: seq<PhiNode>, offset: nat, i: nat, r: SlotValue, cut: int, st': State)
    requires Shape(c, st) && Arrivals(c, st, offset) && i < |st.pending[offset]|
    requires r.slot == st.pending[offset][i].slot
    requires Grows(st.phis, phis) && Flows(phis, st.pending[offset][i].value, r.value)
    requires st' == TakeEntry(st, phis, offset, i, r, cut) && Shape(c, st')
    ensures Arrivals(c, st', offset)
  {
    TakenAt(st, phis, offset, i, r, cut);
    assert st'.branches == st.branches && st'.outs == st.outs && st'.phis == phis;
    ArrivalsReplaced(c, st, st', offset, i, r);
  }

  lemma {:induction false} ArrivalsReplaced(c: Context, st: State, st': State, offset: nat, i: nat, r: SlotValue)
    requires Shape(c, st) && Arrivals(c, st, offset) && i < |st.pending[offset]|
    requires r.slot == st.pending[offset][i].slot && Shape(c, st')
    requires Grows(st.phis, st'.phis) && Flows(st'.phis, st.pending[offset][i].value, r.value)
    requires st'.branches == st.branches && st'.outs == st.outs
    requires offset in st'.pending && st'.pending[offset] == st.pending[offset][i := r]
    ensures Arrivals(c, st', offset)
  {
    forall o, s: nat | (o, offset) in st'.branches && c.Track(s)
      ensures o in st'.outs && Absorbs(st'.phis, st'.pending[offset], s, st'.outs[o][s])
    {
      ArrivalAt(c, st, offset, o, s);
      AbsorbsSet(st.phis, st'.phis, st.pending[offset], i, r, s, st.outs[o][s]);
    }
  }

  lemma {:induction false} ArrivalAt(c: Context, st: State, offset: nat, o: nat, s: nat)
    requires Shape(c, st) && Arrivals(c, st, offset) && (o, offset) in st.branches && c.Track(s)
    ensures o in st.outs && Absorbs(st.phis, st.pending[offset], s, st.outs[o][s])
  {
  }

  lemma {:induction false} AbsorbsSet(p: seq<PhiNode>, q: seq<PhiNode>, list: seq<SlotValue>, i: nat, r: SlotValue, s: nat, v: SsaValue)
    requires Grows(p, q) && Absorbs(p, list, s, v) && i < |list| && r.slot == list[i].slot
    requires Flows(q, list[i].value, r.value)
    ensures Absorbs(q, list[i := r], s, v)
  {
    FlowsGrow(p, q);
    if s == r.slot {
      FlowsTrans(q, v, list[i].value, r.value);
    }
  }

  /** State st' is st after entry i pending at the offset was merged into r and r was taken over. */
  ghost predicate EntryTaken(c: Context, st: State, st': State, offset: nat, i: nat, r: SlotValue, fall: bool, cut: int)
    requires Shape(c, st) && offset in st.pending && i < |st.pending[offset]|
  {
    && r.slot == st.pending[offset][i].slot
    && Grows(st.phis, st'.phis)
    && st' == TakeEntry(st, st'.phis, offset, i, r, cut)
    && Inv(c, st', cut, offset) && Dated(c, st', offset, offset)
    && Flows(st'.phis, st.pending[offset][i].value, r.value)
    && (fall ==> Flows(st'.phis, st.values[r.slot], r.value))
  }

  /** The first i of the entries pending at this offset in state `start` have been merged and taken over. */
  ghost predicate Progress(c: Context, start: State, st: State, offset: nat, i: nat, cut: int, fall: bool) {
    && Shape(c, start) && offset in start.pending && i <= |start.pending[offset]|
    && Inv(c, st, cut, offset) && Dated(c, st, offset, offset) && offset <= cut + 1
    && Grows(start.phis, st.phis)
    && st.pending.Keys == start.pending.Keys && st.branchTargets == start.branchTargets
    && st.branches == start.branches && st.outs == start.outs && st.ins == start.ins
    && |st.pending[offset]| == |start.pending[offset]|
    && (forall j :: 0 <= j < |st.pending[offset]| ==> st.pending[offset][j].slot == start.pending[offset][j].slot)
    && Arrivals(c, st, offset)
    && Merged(c, st, offset, start.values, start.pending[offset][..i], fall)
  }

  lemma {:induction false} ProgressStart(c: Context, st: State, offset: nat, cut: int, fall: bool)
    requires Inv(c, st, offset - 1, offset) && Dated(c, st, offset, offset) && offset in st.pending && offset <= cut + 1
    ensures Progress(c, st, st, offset, 0, cut, fall)
  {
    forall s: nat | c.Track(s)
      ensures Flows(st.phis, st.values[s], st.values[s])
    {
      FlowsRefl(st.phis, st.values[s]);
    }
  }

  lemma {:induction false} ProgressStep(c: Context, start: State, st: State, offset: nat, i: nat, r: SlotValue, cut: int, fall: bool, st': State)
    requires Progress(c, start, st, offset, i, cut, fall) && i < |st.pending[offset]|
    requires EntryTaken(c, st, st', offset, i, r, fall, cut)
    ensures Progress(c, start, st', offset, i + 1, cut, fall)
    ensures st'.pending[offset] == st.pending[offset][i := r]
  {
    MergedStep(c, st, st'.phis, offset, i, r, cut, start.values, start.pending[offset], fall, st');
    ArrivalsStep(c, st, st'.phis, offset, i, r, cut, st');
    TakenAt(st, st'.phis, offset, i, r, cut);
  }

  lemma {:induction false} ProgressDone(c: Context, start: State, st: State, offset: nat, i: nat, cut: int, fall: bool)
    requires Progress(c, start, st, offset, i, cut, fall) && i == |start.pending[offset]|
    requires Bookkeeping(c, start, offset - 1)
    ensures Received(c, st, offset, start.values, fall)
  {
    var list := start.pending[offset];
    assert list[..|list|] == list;
    forall o, s: nat | (o, offset) in st.branches && c.Track(s)
      ensures o in st.outs && Flows(st.phis, st.outs[o][s], st.values[s])
    {
      FlowsRefl(st.phis, st.values[s]);
    }
  }

  /** Once the offset has been passed its pending list is no longer needed. */
  lemma {:induction false} DropPending(c: Context, st: State, offset: nat)
    requires Inv(c, st, offset, offset)
    ensures Inv(c, st.(pending := st.pending - {offset}), offset, offset)
  {
    var st' := st.(pending := st.pending - {offset});
    assert Shape(c, st');
    forall h | h in c.loops && h < offset <= c.loops[h]
      ensures LoopKept(c, st', h, offset)
    {
      assert LoopKept(c, st, h, offset);
    }
  }

  // ------------------------------------------------------------------ loop heads

  /** Slot s is written by every loop that contains the offset, other than one headed there. */
  ghost predicate WrittenAround(c: Context, offset: nat, s: nat) {
    forall h :: h in c.loops && h < offset <= c.loops[h] ==> c.WrittenIn(h, s)
  }

  /** A loop that is active at another loop's head contains that loop. */
  lemma {:induction false} NestedWrites(c: Context, inner: nat, s: nat)
    requires c.Valid() && inner in c.loops && c.WrittenIn(inner, s)
    ensures WrittenAround(c, inner, s)
  {
    forall h | h in c.loops && h < inner <= c.loops[h]
      ensures c.WrittenIn(h, s)
    {
      var b := c.loops[inner];
      assert JumpEdge(c.code, b, inner) && c.reached[b];
      assert h <= b <= c.loops[h];
    }
  }

  /** The invariant while a loop head is processed: its own pending list is exempt from the bookkeeping. */
  ghost predicate HeadInv(c: Context, st: State, offset: nat) {
    && Shape(c, st) && Bookkeeping(c, st, offset) && Threshold(c, st, offset - 1) && ActiveLoops(c, st, offset)
    && Dated(c, st, offset, offset) && offset in st.pending
  }

  ghost function AppendEntry(st: State, t: nat, e: SlotValue): State
    requires t in st.pending
  {
    st.(pending := st.pending[t := st.pending[t] + [e]])
  }

  lemma {:induction false} AppendHeadInv(c: Context, st: State, offset: nat, e: SlotValue, st': State)
    requires HeadInv(c, st, offset) && c.Track(e.slot) && c.Typed(st.phis, e.value, e.slot)
    requires e.value.Phi? && e.value.offset == offset
    requires WrittenAround(c, offset, e.slot)
    requires st' == AppendEntry(st, offset, e)
    ensures HeadInv(c, st', offset)
  {
    hide Bookkeeping, Threshold;
    AppendShape(c, st, offset, e, st');
    AppendKept(c, st, offset, e, st');
    forall h | h in c.loops && h < offset <= c.loops[h]
      ensures LoopKept(c, st', h, offset)
    {
      assert LoopKept(c, st, h, offset);
    }
  }

  lemma {:induction false} AppendKept(c: Context, st: State, offset: nat, e: SlotValue, st': State)
    requires Shape(c, st) && Bookkeeping(c, st, offset) && Threshold(c, st, offset - 1) && offset in st.pending
    requires st' == AppendEntry(st, offset, e) && Shape(c, st')
    ensures Bookkeeping(c, st', offset) && Threshold(c, st', offset - 1)
  {
    EntriesKept(st.pending, st'.pending);
  }

  lemma {:induction false} AppendShape(c: Context, st: State, t: nat, e: SlotValue, st': State)
    requires Shape(c, st) && t in st.pending && c.Track(e.slot) && c.Typed(st.phis, e.value, e.slot)
    requires st' == AppendEntry(st, t, e)
    ensures Shape(c, st')
  {
  }

  lemma {:induction false} AssignHeadInv(c: Context, st: State, offset: nat, s: nat, v: SsaValue, st': State)
    requires HeadInv(c, st, offset) && c.Track(s) && c.Typed(st.phis, v, s)
    requires v.Phi? && v.offset == offset
    requires WrittenAround(c, offset, s)
    requires st' == Assign(st, s, v, offset - 1)
    ensures HeadInv(c, st', offset)
  {
    AssignShape(c, st, s, v, offset - 1);
    AssignBookkeeping(c, st, s, v, offset - 1, offset, st');
    AssignThreshold(c, st, s, v, offset - 1);
    AssignLoops(c, st, s, v, offset - 1, offset, st');
    AssignDated(c, st, s, v, offset - 1, offset);
  }

  lemma {:induction false} GrowHeadInv(c: Context, st: State, offset: nat, phis: seq<PhiNode>, st': State)
    requires HeadInv(c, st, offset) && Grows(st.phis, phis) && c.PhisOk(phis) && st' == st.(phis := phis)
    ensures HeadInv(c, st', offset)
  {
    GrowShape(c, st, phis);
    GrowBookkeeping(c, st, phis, offset);
    GrowLoops(c, st, phis, offset);
  }

  /** Loop phis in the current values are pending at the loop head. */
  ghost predicate PhisPending(c: Context, st: State, offset: nat)
    requires Shape(c, st) && offset in st.pending
  {
    forall s: nat :: c.Track(s) && st.values[s].Phi? && st.values[s].offset == offset ==>
      SlotValue(s, st.values[s]) in st.pending[offset]
  }

  /** Only slots that the loop writes have entries pending inside the loop. */
  ghost predicate BodyPending(c: Context, st: State, offset: nat)
    requires offset in c.loops
  {
    forall t, i :: t in st.pending && offset < t <= c.loops[offset] && 0 <= i < |st.pending[t]| ==>
      c.WrittenIn(offset, st.pending[t][i].slot)
  }

  /** The slots below k that the loop writes have their loop phi. */
  ghost predicate HeadProgress(c: Context, start: State, st: State, offset: nat, k: nat, fall: bool) {
    && offset in c.loops && HeadInv(c, st, offset) && |start.values| == |c.tracked|
    && Grows(start.phis, st.phis) && st.pending.Keys == start.pending.Keys + {offset}
    && st.branchTargets == start.branchTargets && st.branches == start.branches
    && st.outs == start.outs && st.ins == start.ins
    && Received(c, st, offset, start.values, fall)
    && PhisPending(c, st, offset) && BodyPending(c, st, offset)
    && (forall s: nat :: s < k && c.Track(s) && c.WrittenIn(offset, s) ==> st.values[s].Phi? && st.values[s].offset == offset)
    && (offset !in start.pending ==>
          forall s: nat :: c.Track(s) && !c.WrittenIn(offset, s) ==> st.values[s] == start.values[s])
  }

  /** The state after slot s gets its loop phi v. */
  ghost function LoopAssign(st: State, phis: seq<PhiNode>, offset: nat, s: nat, v: SsaValue): State
    requires s < |st.values| == |st.branchSize| && offset in st.pending
  {
    AppendEntry(Assign(st.(phis := phis), s, v, offset - 1), offset, SlotValue(s, v))
  }

  lemma {:induction false} LoopAssignInv(c: Context, st: State, phis: seq<PhiNode>, offset: nat, s: nat, v: SsaValue, st': State)
    requires HeadInv(c, st, offset) && c.Track(s) && WrittenAround(c, offset, s)
    requires Grows(st.phis, phis) && c.PhisOk(phis) && c.Typed(phis, v, s) && v.Phi? && v.offset == offset
    requires st' == LoopAssign(st, phis, offset, s, v)
    ensures HeadInv(c, st.(phis := phis), offset) && HeadInv(c, st', offset)
  {
    var st1 := st.(phis := phis);
    GrowHeadInv(c, st, offset, phis, st1);
    var st2 := Assign(st1, s, v, offset - 1);
    AssignHeadInv(c, st1, offset, s, v, st2);
    AppendHeadInv(c, st2, offset, SlotValue(s, v), st');
  }

  lemma {:induction false} LoopAssignReceived(c: Context, st: State, phis: seq<PhiNode>, offset: nat, s: nat, v: SsaValue, v0: seq<SsaValue>,
                           fall: bool, st': State)
    requires Shape(c, st) && |v0| == |c.tracked| && Received(c, st, offset, v0, fall)
    requires offset in st.pending && c.Track(s)
    requires (exists o :: (o, offset) in st.branches) ==> fall
    requires Grows(st.phis, phis) && (fall ==> Flows(phis, st.values[s], v))
    requires st' == LoopAssign(st, phis, offset, s, v) && Shape(c, st')
    ensures Received(c, st', offset, v0, fall)
  {
    FlowsGrow(st.phis, phis);
    if fall {
      FlowsTrans(phis, v0[s], st.values[s], v);
      forall o | (o, offset) in st.branches
        ensures o in st.outs && Flows(phis, st.outs[o][s], v)
      {
        FlowsTrans(phis, st.outs[o][s], st.values[s], v);
      }
    }
  }

  lemma {:induction false} LoopAssignPending(c: Context, st: State, phis: seq<PhiNode>, offset: nat, s: nat, v: SsaValue, st': State)
    requires offset in c.loops && offset in st.pending && c.Track(s) && c.WrittenIn(offset, s)
    requires Shape(c, st) && PhisPending(c, st, offset) && BodyPending(c, st, offset)
    requires st' == LoopAssign(st, phis, offset, s, v) && Shape(c, st')
    ensures PhisPending(c, st', offset) && BodyPending(c, st', offset) && st'.pending.Keys == st.pending.Keys
  {
    hide PhisPending, BodyPending, LoopAssign;
    var st1 := Assign(st.(phis := phis), s, v, offset - 1);
    LoopAssignedAt(c, st, phis, offset, s, v, st1, st');
    LoopAssignBody(c, st, st1, offset, s, st');
    LoopAssignPhis(c, st, offset, s, v, st');
  }

  /** The lists after slot s got its loop phi. */
  lemma {:induction false} LoopAssignedAt(c: Context, st: State, phis: seq<PhiNode>, offset: nat, s: nat, v: SsaValue, st1: State, st': State)
    requires Shape(c, st) && offset in st.pending && c.Track(s)
    requires st1 == Assign(st.(phis := phis), s, v, offset - 1) && st' == LoopAssign(st, phis, offset, s, v)
    ensures st1.pending.Keys == st.pending.Keys == st'.pending.Keys && st'.values == st.values[s := v]
    ensures forall t :: t in st.pending ==> OneMore(st.pending[t], st1.pending[t], s)
    ensures forall t :: t in st.pending && t != offset ==> st'.pending[t] == st1.pending[t]
    ensures st'.pending[offset] == st1.pending[offset] + [SlotValue(s, v)]
  {
    forall t | t in st.pending
      ensures t in st1.pending && OneMore(st.pending[t], st1.pending[t], s)
    {
      MarkedAt(st.(phis := phis), s, v, offset - 1, t, st1);
    }
  }

  /** The list, possibly with an entry for the slot at the end. */
  ghost predicate OneMore(list: seq<SlotValue>, list': seq<SlotValue>, s: nat) {
    list' == list || exists e: SlotValue :: e.slot == s && list' == list + [e]
  }

  lemma {:induction false} LoopAssignBody(c: Context, st: State, st1: State, offset: nat, s: nat, st': State)
    requires offset in c.loops && offset in st.pending && c.WrittenIn(offset, s) && BodyPending(c, st, offset)
    requires st'.pending.Keys == st1.pending.Keys == st.pending.Keys
    requires forall t :: t in st.pending ==> OneMore(st.pending[t], st1.pending[t], s)
    requires forall t :: t in st.pending && t != offset ==> st'.pending[t] == st1.pending[t]
    ensures BodyPending(c, st', offset)
  {
    forall t: nat, i | t in st'.pending && offset < t <= c.loops[offset] && 0 <= i < |st'.pending[t]|
      ensures c.WrittenIn(offset, st'.pending[t][i].slot)
    {
      assert OneMore(st.pending[t], st1.pending[t], s);
      if i < |st.pending[t]| {
        assert st'.pending[t][i] == st.pending[t][i];
      }
    }
  }

  lemma {:induction false} LoopAssignPhis(c: Context, st: State, offset: nat, s: nat, v: SsaValue, st': State)
    requires Shape(c, st) && Shape(c, st') && offset in st.pending && c.Track(s) && PhisPending(c, st, offset)
    requires offset in st'.pending && st'.values == st.values[s := v] && |st'.pending[offset]| > |st.pending[offset]|
    requires st.pending[offset] <= st'.pending[offset] && st'.pending[offset][|st'.pending[offset]| - 1] == SlotValue(s, v)
    ensures PhisPending(c, st', offset)
  {
    forall x: nat | c.Track(x) && st'.values[x].Phi? && st'.values[x].offset == offset
      ensures SlotValue(x, st'.values[x]) in st'.pending[offset]
    {
      if x != s {
        var i :| 0 <= i < |st.pending[offset]| && st.pending[offset][i] == SlotValue(x, st.values[x]);
        assert st'.pending[offset][i] == st.pending[offset][i];
      }
    }
  }

  lemma {:induction false} HeadProgressStep(c: Context, start: State, st: State, offset: nat, s: nat, fall: bool, v: SsaValue, st': State)
    requires HeadProgress(c, start, st, offset, s, fall) && c.Track(s)
    requires c.WrittenIn(offset, s) && WrittenAround(c, offset, s)
    requires (exists o :: (o, offset) in st.branches) ==> fall
    requires Grows(st.phis, st'.phis) && c.PhisOk(st'.phis) && c.Typed(st'.phis, v, s) && v.Phi? && v.offset == offset
    requires fall ==> Flows(st'.phis, st.values[s], v)
    requires st' == LoopAssign(st, st'.phis, offset, s, v)
    ensures HeadProgress(c, start, st', offset, s + 1, fall)
  {
    LoopAssignInv(c, st, st'.phis, offset, s, v, st');
    LoopAssignReceived(c, st, st'.phis, offset, s, v, start.values, fall, st');
    LoopAssignPending(c, st, st'.phis, offset, s, v, st');
  }

  lemma {:induction false} HeadFacts(c: Context, start: State, st: State, offset: nat, k: nat, fall: bool)
    requires HeadProgress(c, start, st, offset, k, fall)
    ensures offset in c.loops && |st.values| == |c.tracked|
  {
  }

  /** A slot that needs no loop phi, or has one. */
  lemma {:induction false} HeadSkips(c: Context, start: State, st: State, offset: nat, s: nat, fall: bool)
    requires HeadProgress(c, start, st, offset, s, fall)
    requires c.Track(s) && c.WrittenIn(offset, s) ==> st.values[s].Phi? && st.values[s].offset == offset
    ensures HeadProgress(c, start, st, offset, s + 1, fall)
  {
    hide HeadInv, Received, PhisPending, BodyPending;
  }

  lemma {:induction false} TakePending(c: Context, st: State, offset: nat, i: nat, r: SlotValue, st': State)
    requires offset in c.loops && offset in st.pending && i < |st.pending[offset]| && r.slot == st.pending[offset][i].slot
    requires Shape(c, st) && PhisPending(c, st, offset) && c.Track(r.slot)
    requires forall t :: t in st.pending ==> !(offset < t <= c.loops[offset])
    requires st' == TakeEntry(st, st'.phis, offset, i, r, offset - 1) && Shape(c, st')
    ensures st'.pending.Keys == st.pending.Keys && PhisPending(c, st', offset) && BodyPending(c, st', offset)
  {
    TakenAt(st, st'.phis, offset, i, r, offset - 1);
    forall s: nat | c.Track(s) && st'.values[s].Phi? && st'.values[s].offset == offset
      ensures SlotValue(s, st'.values[s]) in st'.pending[offset]
    {
      if s == r.slot {
        assert st'.pending[offset][i] == r;
      } else {
        var j :| 0 <= j < |st.pending[offset]| && st.pending[offset][j] == SlotValue(s, st.values[s]);
        assert st'.pending[offset][j] == st.pending[offset][j];
      }
    }
  }

  /** The first i entries pending at a loop head have been merged. */
  ghost predicate HeadMerging(c: Context, start: State, st: State, offset: nat, i: nat, fall: bool) {
    && offset in c.loops && Progress(c, start, st, offset, i, offset - 1, fall)
    && PhisPending(c, st, offset) && BodyPending(c, st, offset)
    && forall t :: t in start.pending ==> !(offset < t <= c.loops[offset])
  }

  lemma {:induction false} HeadMergingStart(c: Context, st: State, offset: nat, fall: bool)
    requires Inv(c, st, offset - 1, offset) && Dated(c, st, offset, offset - 1) && offset in st.pending && offset in c.loops
    requires forall t :: t in st.pending ==> !(offset < t <= c.loops[offset])
    ensures HeadMerging(c, st, st, offset, 0, fall)
  {
    ProgressStart(c, st, offset, offset - 1, fall);
  }

  lemma {:induction false} HeadMergingStep(c: Context, start: State, st: State, offset: nat, i: nat, r: SlotValue, fall: bool, st': State)
    requires HeadMerging(c, start, st, offset, i, fall) && i < |st.pending[offset]|
    requires EntryTaken(c, st, st', offset, i, r, fall, offset - 1)
    ensures HeadMerging(c, start, st', offset, i + 1, fall)
  {
    ProgressStep(c, start, st, offset, i, r, offset - 1, fall, st');
    TakePending(c, st, offset, i, r, st');
  }

  lemma {:induction false} HeadMergingDone(c: Context, start: State, st: State, offset: nat, i: nat, fall: bool)
    requires HeadMerging(c, start, st, offset, i, fall) && i == |start.pending[offset]|
    requires Bookkeeping(c, start, offset - 1)
    ensures HeadProgress(c, start, st, offset, 0, fall)
  {
    ProgressDone(c, start, st, offset, i, offset - 1, fall);
  }

  /** No jumps to the head are pending: its list starts out empty. */
  lemma {:induction false} FreshHead(c: Context, start: State, st: State, offset: nat, fall: bool)
    requires Inv(c, start, offset - 1, offset) && Dated(c, start, offset, offset - 1) && offset in c.loops
    requires offset !in start.pending && BodyPending(c, start, offset)
    requires st == start.(pending := start.pending[offset := []])
    ensures HeadProgress(c, start, st, offset, 0, fall)
  {
    hide Inv, HeadInv;
    FreshInv(c, start, st, offset);
    forall s: nat | c.Track(s)
      ensures Flows(st.phis, st.values[s], st.values[s])
    {
      FlowsRefl(st.phis, st.values[s]);
    }
  }

  lemma {:induction false} FreshInv(c: Context, start: State, st: State, offset: nat)
    requires Inv(c, start, offset - 1, offset) && Dated(c, start, offset, offset - 1)
    requires offset !in start.pending && st == start.(pending := start.pending[offset := []])
    ensures Shape(c, start) && Shape(c, st) && HeadInv(c, st, offset)
    ensures forall o :: (o, offset) !in st.branches
  {
    forall h | h in c.loops && h < offset <= c.loops[h]
      ensures LoopKept(c, st, h, offset)
    {
      assert LoopKept(c, start, h, offset);
    }
  }

  // ------------------------------------------------------------------ jumps

  /** Entry e' is entry e after the current value of its slot was merged into it at the target. */
  ghost predicate EntryMerged(c: Context, st: State, phis: seq<PhiNode>, target: nat, e: SlotValue, e': SlotValue)
    requires e.slot < |st.values|
  {
    && e'.slot == e.slot && c.Typed(phis, e'.value, e'.slot)
    && Flows(phis, st.values[e.slot], e'.value) && Flows(phis, e.value, e'.value)
    && (st.values[e.slot] == e.value ==> e' == e)
    && (e.value.Phi? && e.value.offset >= target ==> e' == e)
    && (e' == e || (e'.value.Phi? && e'.value.offset == target))
  }

  /** State st' is st after the current values were merged into the first n entries pending at the target. */
  ghost predicate BranchMerged(c: Context, st: State, st': State, target: nat, n: nat)
    requires Shape(c, st) && target in st.pending && n <= |st.pending[target]|
  {
    && Grows(st.phis, st'.phis) && c.PhisOk(st'.phis)
    && target in st'.pending && |st'.pending[target]| == |st.pending[target]|
    && st' == st.(phis := st'.phis, pending := st.pending[target := st'.pending[target]])
    && (forall i :: 0 <= i < n ==> EntryMerged(c, st, st'.phis, target, st.pending[target][i], st'.pending[target][i]))
    && (forall i :: n <= i < |st.pending[target]| ==> st'.pending[target][i] == st.pending[target][i])
  }

  lemma {:induction false} BranchMergedStep(c: Context, st: State, st1: State, st': State, target: nat, n: nat, r: SlotValue)
    requires Shape(c, st) && target in st.pending && n < |st.pending[target]|
    requires BranchMerged(c, st, st1, target, n)
    requires Grows(st1.phis, st'.phis) && c.PhisOk(st'.phis)
    requires EntryMerged(c, st, st'.phis, target, st.pending[target][n], r)
    requires st' == st1.(phis := st'.phis, pending := st1.pending[target := st1.pending[target][n := r]])
    ensures BranchMerged(c, st, st', target, n + 1)
  {
    FlowsGrow(st1.phis, st'.phis);
    forall i | 0 <= i <= n
      ensures EntryMerged(c, st, st'.phis, target, st.pending[target][i], st'.pending[target][i])
    {
      if i < n {
        assert EntryMerged(c, st, st1.phis, target, st.pending[target][i], st1.pending[target][i]);
      }
    }
  }

  lemma {:induction false} BranchShape(c: Context, st: State, st': State, target: nat, n: nat)
    requires Shape(c, st) && target in st.pending && n <= |st.pending[target]| && BranchMerged(c, st, st', target, n)
    ensures Shape(c, st')
  {
    GrowShape(c, st, st'.phis);
    forall i | 0 <= i < |st'.pending[target]|
      ensures c.Track(st'.pending[target][i].slot) && c.Typed(st'.phis, st'.pending[target][i].value, st'.pending[target][i].slot)
    {
      if i < n {
        assert EntryMerged(c, st, st'.phis, target, st.pending[target][i], st'.pending[target][i]);
      }
    }
  }

  /** A forward jump to the target has been recorded. */
  ghost function Branched(st: State, offset: nat, target: nat): State {
    st.(branches := st.branches + {(offset, target)})
  }

  /** A jump to a target that is already pending. */
  lemma {:induction false} JumpAgain(c: Context, st: State, st': State, offset: nat, target: nat, n: nat)
    requires Inv(c, st, offset, offset) && offset < target && target in st.pending && target in st.branchTargets
    requires n == |st.pending[target]| && BranchMerged(c, st, st', target, n)
    requires offset in st.outs && st.outs[offset] == st.values
    ensures Inv(c, Branched(st', offset, target), offset, offset)
  {
    GrowInv(c, st, st'.phis, offset, offset);
    var st1 := st.(phis := st'.phis);
    var list, list' := st.pending[target], st'.pending[target];
    forall i | 0 <= i < n
      ensures EntryMerged(c, st, st'.phis, target, list[i], list'[i])
    {
    }
    SameSlots(list, list');
    var st2 := Branched(st', offset, target);
    assert Shape(c, st2);
    JumpAbsorbs(c, st1, st2, offset, target);
    forall h | h in c.loops && h < offset <= c.loops[h]
      ensures LoopKept(c, st2, h, offset)
    {
      assert LoopKept(c, st1, h, offset);
    }
  }

  lemma {:induction false} JumpAbsorbs(c: Context, st1: State, st2: State, offset: nat, target: nat)
    requires Shape(c, st1) && Bookkeeping(c, st1, offset) && Shape(c, st2)
    requires target in st1.pending && target in st2.pending && offset < target && target in st1.branchTargets
    requires st2 == st1.(pending := st1.pending[target := st2.pending[target]], branches := st1.branches + {(offset, target)})
    requires |st1.pending[target]| == |st2.pending[target]|
    requires forall i :: 0 <= i < |st1.pending[target]| ==>
               EntryMerged(c, st1, st1.phis, target, st1.pending[target][i], st2.pending[target][i])
    requires offset in st1.outs && st1.outs[offset] == st1.values
    ensures Bookkeeping(c, st2, offset)
  {
    var list, list' := st1.pending[target], st2.pending[target];
    SameSlots(list, list');
    forall o, s: nat | (o, target) in st2.branches && c.Track(s)
      ensures o in st2.outs && Absorbs(st2.phis, list', s, st2.outs[o][s])
    {
      forall i | 0 <= i < |list'| && list'[i].slot == s
        ensures Flows(st2.phis, st2.outs[o][s], list'[i].value)
      {
        assert EntryMerged(c, st1, st1.phis, target, list[i], list'[i]);
        if o != offset {
          FlowsTrans(st2.phis, st2.outs[o][s], list[i].value, list'[i].value);
        }
      }
    }
  }

  /** The first jump to a target. */
  lemma {:induction false} JumpFirst(c: Context, st: State, st': State, offset: nat, target: nat)
    requires Inv(c, st, offset, offset) && offset < target && target !in st.pending
    requires st' == Branched(st.(pending := st.pending[target := []], branchTargets := st.branchTargets + [target]), offset, target)
    requires offset in st.outs && st.outs[offset] == st.values && st.ins != map[]
    ensures Inv(c, st', offset, offset)
  {
    assert Shape(c, st');
    forall h | h in c.loops && h < offset <= c.loops[h]
      ensures LoopKept(c, st', h, offset)
    {
      assert LoopKept(c, st, h, offset);
    }
  }

  /** At the back edge of a loop the current values flow into the values at its head. */
  lemma {:induction false} BackEdgeFlows(c: Context, st: State, st': State, offset: nat, h: nat, n: nat)
    requires Inv(c, st, offset, offset) && h in c.loops && h < offset == c.loops[h] && h in st.pending
    requires n == |st.pending[h]| && BranchMerged(c, st, st', h, n)
    ensures h in st.ins && forall s: nat :: c.Track(s) ==> Flows(st'.phis, st.values[s], st.ins[h][s])
  {
    assert LoopKept(c, st, h, offset);
    forall s: nat | c.Track(s)
      ensures Flows(st'.phis, st.values[s], st.ins[h][s])
    {
      if c.WrittenIn(h, s) {
        var i :| 0 <= i < n && st.pending[h][i] == SlotValue(s, st.ins[h][s]);
        assert EntryMerged(c, st, st'.phis, h, st.pending[h][i], st'.pending[h][i]);
      } else {
        FlowsRefl(st'.phis, st.values[s]);
      }
    }
  }

  /** After the back edge its loop is done; the others are kept. */
  lemma {:induction false} BackEdgeInv(c: Context, st: State, st': State, offset: nat, h: nat, n: nat)
    requires Inv(c, st, offset, offset) && h in c.loops && h < offset == c.loops[h] && h in st.pending
    requires n == |st.pending[h]| && BranchMerged(c, st, st', h, n) && offset !in c.loops
    ensures Inv(c, st'.(pending := st'.pending - {h}), offset, offset + 1)
  {
    GrowInv(c, st, st'.phis, offset, offset);
    var st1 := st.(phis := st'.phis);
    var st2 := st'.(pending := st'.pending - {h});
    assert st2 == st1.(pending := st1.pending - {h});
    assert Shape(c, st2);
    forall g | g in c.loops && g < offset + 1 <= c.loops[g]
      ensures g < offset ==> LoopKept(c, st2, g, offset + 1)
    {
      if g < offset {
        assert LoopKept(c, st1, g, offset);
      }
    }
  }

  // ------------------------------------------------------------------ the sweep

  /** Targets pending from `cur` on come from jumps before it, and none is marked before the operation after its jump. */
  ghost predicate Sourced(st: State, cur: nat) {
    forall t :: t in st.pending && t >= cur ==>
      && t in st.branchTargets
      && exists o :: (o, t) in st.branches && o < cur && (st.pending[t] != [] ==> o + 1 < cur)
  }

  /** The values after an operation. */
  ghost predicate Effect(c: Context, st: State, o: nat)
    requires Shape(c, st) && o < |c.code| && o in st.ins && o in st.outs
  {
    forall s: nat :: c.Track(s) ==>
      st.outs[o][s] == if Writes(c.code[o], s) then Written(s, o) else st.ins[o][s]
  }

  /** Along every control-flow edge between processed operations, values flow. */
  ghost predicate EdgesFlow(c: Context, st: State)
    requires Shape(c, st)
  {
    forall o, t, s: nat :: o in st.outs && t in st.ins && Edge(c.code, o, t) && c.Track(s) ==>
      Flows(st.phis, st.outs[o][s], st.ins[t][s])
  }

  /** What the pass has recorded: values before and after the reached operations below the bounds, and their jumps. */
  ghost predicate History(c: Context, st: State, entered: nat, executed: nat)
    requires Shape(c, st)
  {
    && |c.reached| == |c.code| && executed <= entered && (|c.code| > 0 ==> c.reached[0])
    && (forall o: nat :: o in st.ins <==> o < entered && o < |c.code| && c.reached[o])
    && (forall o: nat :: o in st.outs <==> o < executed && o < |c.code| && c.reached[o])
    && (forall o :: o in st.outs ==> Effect(c, st, o))
    && (0 in st.ins ==> forall s: nat :: c.Track(s) && !c.Forgets(s) ==> st.ins[0][s] == Initial(s))
    && (forall o, s: nat :: o in st.ins && c.Track(s) ==> c.Typed(st.phis, st.ins[o][s], s))
    && EdgesFlow(c, st)
  }

  /** The recorded jumps are those of the operations before `cur`. */
  ghost predicate JumpsBefore(c: Context, st: State, cur: nat) {
    && (forall o: nat, t: nat :: (o, t) in st.branches ==> o < cur && o in st.outs && JumpEdge(c.code, o, t))
    && (forall o: nat, t: nat :: o < cur && o in st.outs && JumpEdge(c.code, o, t) ==> (o, t) in st.branches)
  }

  /** The current values are those that fall into offset `cur`. */
  ghost predicate FallValues(c: Context, st: State, cur: nat)
    requires Shape(c, st)
  {
    && (0 < cur && cur - 1 in st.outs ==> st.outs[cur - 1] == st.values)
    && (cur == 0 ==> forall s: nat :: c.Track(s) ==> st.values[s] == Initial(s))
  }

  ghost predicate Top(c: Context, st: State, cur: nat) {
    && Inv(c, st, cur - 1, cur) && Dated(c, st, cur, cur - 1) && Sourced(st, cur)
    && History(c, st, cur, cur) && JumpsBefore(c, st, cur) && FallValues(c, st, cur)
  }

  /** A jump into a loop from before it. */
  lemma {:induction false} JumpIntoLoop(c: Context, offset: nat, o: nat, t: nat)
    requires c.Valid() && offset in c.loops && o < offset <= t <= c.loops[offset]
    requires o < |c.code| && c.reached[o] && JumpEdge(c.code, o, t)
    ensures if t == offset then FallsInto(c.code, c.reached, offset)
            else o + 1 == offset && !FallsInto(c.code, c.reached, offset)
  {
  }

  /** What the head of a loop can rely on, because of how loops are entered. */
  lemma {:induction false} HeadEntries(c: Context, st: State, offset: nat)
    requires c.Valid() && Sourced(st, offset) && offset in c.loops
    requires forall o: nat, t: nat :: (o, t) in st.branches ==> o < |c.code| && c.reached[o] && JumpEdge(c.code, o, t)
    requires forall o: nat, t: nat :: (o, t) in st.branches ==> o < offset
    ensures BodyPending(c, st, offset)
    ensures offset in st.pending ==> forall t :: t in st.pending ==> !(offset < t <= c.loops[offset])
    ensures (exists o :: (o, offset) in st.branches) ==> FallsInto(c.code, c.reached, offset)
  {
    forall t | t in st.pending && offset < t <= c.loops[offset]
      ensures st.pending[t] == [] && !FallsInto(c.code, c.reached, offset)
    {
      var o :| (o, t) in st.branches && o < offset && (st.pending[t] != [] ==> o + 1 < offset);
      JumpIntoLoop(c, offset, o, t);
    }
    forall o | (o, offset) in st.branches
      ensures FallsInto(c.code, c.reached, offset)
    {
      JumpIntoLoop(c, offset, o, offset);
    }
    if offset in st.pending {
      var o :| (o, offset) in st.branches && o < offset;
    }
  }

  /** The pass has merged all incoming values at the offset. */
  ghost predicate Entered(c: Context, st: State, offset: nat) {
    && Inv(c, st, offset, offset) && Dated(c, st, offset, offset) && Sourced(st, offset + 1)
    && (offset in c.loops ==> LoopKept(c, st, offset, offset + 1))
    && History(c, st, offset + 1, offset) && JumpsBefore(c, st, offset)
    && offset in st.ins && st.ins[offset] == st.values
  }

  ghost function RecordIn(st: State, offset: nat): State {
    st.(ins := st.ins[offset := st.values])
  }

  lemma {:induction false} RecordInInv(c: Context, st: State, offset: nat, st': State)
    requires Inv(c, st, offset, offset) && Dated(c, st, offset, offset) && st' == RecordIn(st, offset) && ValuesTyped(c, st)
    ensures Inv(c, st', offset, offset) && Dated(c, st', offset, offset)
  {
    assert Shape(c, st');
    forall h | h in c.loops && h < offset <= c.loops[h]
      ensures LoopKept(c, st', h, offset)
    {
      assert LoopKept(c, st, h, offset);
    }
  }

  lemma {:induction false} RecordInHistory(c: Context, start: State, st: State, offset: nat, fall: bool, st': State)
    requires Shape(c, start) && History(c, start, offset, offset)
    requires JumpsBefore(c, start, offset) && FallValues(c, start, offset)
    requires offset < |c.code| && c.reached[offset] && fall == FallsInto(c.code, c.reached, offset)
    requires Shape(c, st) && Grows(start.phis, st.phis) && Received(c, st, offset, start.values, fall)
    requires st.ins == start.ins && st.outs == start.outs && st.branches == start.branches
    requires offset == 0 ==> forall s: nat :: c.Track(s) && !c.Forgets(s) ==> st.values[s] == start.values[s]
    requires st' == RecordIn(st, offset) && Shape(c, st') && ValuesTyped(c, st)
    ensures History(c, st', offset + 1, offset)
  {
    hide EdgesFlow, Effect, Received, JumpsBefore;
    RecordInEdges(c, start, st, offset, fall, st');
    RecordInTyped(c, start, st, offset, st');
    EffectsKept(c, start, offset, offset, st');
  }

  lemma {:induction false} RecordInTyped(c: Context, start: State, st: State, offset: nat, st': State)
    requires Shape(c, start) && Shape(c, st) && Grows(start.phis, st.phis) && st.ins == start.ins
    requires forall o, s: nat :: o in start.ins && c.Track(s) ==> c.Typed(start.phis, start.ins[o][s], s)
    requires st' == RecordIn(st, offset) && Shape(c, st') && ValuesTyped(c, st)
    ensures forall o, s: nat :: o in st'.ins && c.Track(s) ==> c.Typed(st'.phis, st'.ins[o][s], s)
  {
  }

  /** The effects of executed operations stay when others are entered. */
  lemma {:induction false} EffectsKept(c: Context, st: State, entered: nat, executed: nat, st': State)
    requires Shape(c, st) && History(c, st, entered, executed) && Shape(c, st') && st'.outs == st.outs
    requires forall o :: o in st.ins ==> o in st'.ins && st'.ins[o] == st.ins[o]
    ensures forall o :: o in st'.outs ==> o < |c.code| && o in st'.ins && Effect(c, st', o)
  {
    forall o | o in st'.outs
      ensures o < |c.code| && o in st'.ins && Effect(c, st', o)
    {
      assert Effect(c, st, o);
    }
  }

  lemma {:induction false} TypedGrows(c: Context, p: seq<PhiNode>, q: seq<PhiNode>, v: SsaValue, s: nat)
    requires Grows(p, q) && c.Typed(p, v, s)
    ensures c.Typed(q, v, s)
  {
  }

  lemma {:induction false} RecordInEdges(c: Context, start: State, st: State, offset: nat, fall: bool, st': State)
    requires Shape(c, start) && EdgesFlow(c, start) && JumpsBefore(c, start, offset) && FallValues(c, start, offset)
    requires |c.reached| == |c.code| && fall == FallsInto(c.code, c.reached, offset)
    requires forall o :: o in start.outs ==> o < offset && o < |c.code| && c.reached[o]
    requires Shape(c, st) && Grows(start.phis, st.phis) && Received(c, st, offset, start.values, fall)
    requires st.ins == start.ins && st.outs == start.outs && st.branches == start.branches
    requires st' == RecordIn(st, offset) && Shape(c, st')
    ensures EdgesFlow(c, st')
  {
    forall o, t, s: nat | o in st'.outs && t in st'.ins && Edge(c.code, o, t) && c.Track(s)
      ensures Flows(st'.phis, st'.outs[o][s], st'.ins[t][s])
    {
      if t != offset {
        FlowGrows(start.phis, st.phis, start.outs[o][s], start.ins[t][s]);
      } else if JumpEdge(c.code, o, t) {
        assert (o, t) in st.branches;
      } else {
        assert fall && start.values == st.outs[o];
      }
    }
  }

  lemma {:induction false} SourcedKept(st: State, st': State, offset: nat)
    requires Sourced(st, offset) && st'.branchTargets == st.branchTargets && st'.branches == st.branches
    requires forall t :: t in st'.pending && t > offset ==> t in st.pending
    ensures Sourced(st', offset + 1)
  {
  }

  /** Entering a join point or an operation without incoming jumps. */
  lemma {:induction false} EnterPlain(c: Context, start: State, st: State, offset: nat, fall: bool, st': State)
    requires Top(c, start, offset) && offset < |c.code| && c.reached[offset] && offset !in c.loops
    requires fall == FallsInto(c.code, c.reached, offset)
    requires Inv(c, st, offset, offset) && Dated(c, st, offset, offset) && Grows(start.phis, st.phis)
    requires Received(c, st, offset, start.values, fall)
    requires st.pending.Keys == start.pending.Keys - {offset} && st.branchTargets == start.branchTargets
    requires st.ins == start.ins && st.outs == start.outs && st.branches == start.branches
    requires offset == 0 ==> st.values == start.values
    requires st' == RecordIn(st, offset)
    ensures Entered(c, st', offset)
  {
    assert ValuesTyped(c, st) by {
      assert offset > 0 ==> 0 in st.ins;
    }
    RecordInInv(c, st, offset, st');
    RecordInHistory(c, start, st, offset, fall, st');
    SourcedKept(start, st', offset);
  }

  /** At the head of a loop all values are typed, and a first operation forgets only what its loop writes. */
  lemma {:induction false} HeadTyped(c: Context, start: State, st: State, offset: nat, fall: bool, k: nat)
    requires Top(c, start, offset) && offset < |c.code| && c.reached[offset]
    requires HeadProgress(c, start, st, offset, k, fall) && k == |c.tracked|
    ensures ValuesTyped(c, st)
    ensures offset == 0 ==> forall s: nat :: c.Track(s) && !c.Forgets(s) ==> st.values[s] == start.values[s]
  {
    if offset > 0 {
      assert 0 in st.ins;
    } else {
      assert offset !in start.pending;
    }
  }

  /** Entering a loop head. */
  lemma {:induction false} EnterHead(c: Context, start: State, st: State, offset: nat, fall: bool, k: nat, st': State)
    requires Top(c, start, offset) && offset < |c.code| && c.reached[offset]
    requires fall == FallsInto(c.code, c.reached, offset)
    requires HeadProgress(c, start, st, offset, k, fall) && k == |c.tracked|
    requires st' == RecordIn(st, offset)
    ensures Entered(c, st', offset)
  {
    hide Bookkeeping, Threshold, ActiveLoops, Dated, Received, LoopKept, Sourced, EdgesFlow, Effect;
    HeadInvBeyond(c, st, offset);
    HeadTyped(c, start, st, offset, fall, k);
    RecordInInv(c, st, offset, st');
    RecordInHistory(c, start, st, offset, fall, st');
    SourcedKept(start, st', offset);
    HeadKept(c, st, offset, st');
  }

  lemma {:induction false} HeadInvBeyond(c: Context, st: State, offset: nat)
    requires HeadInv(c, st, offset)
    ensures Inv(c, st, offset, offset)
  {
  }

  lemma {:induction false} HeadKept(c: Context, st: State, offset: nat, st': State)
    requires offset in c.loops && Shape(c, st) && offset in st.pending && PhisPending(c, st, offset) && BodyPending(c, st, offset)
    requires forall s: nat :: c.Track(s) && c.WrittenIn(offset, s) ==> st.values[s].Phi? && st.values[s].offset == offset
    requires st' == RecordIn(st, offset) && Shape(c, st')
    ensures LoopKept(c, st', offset, offset + 1)
  {
  }

  /** The operation at the offset has been executed, and the first k of its jumps recorded. */
  ghost predicate Executed(c: Context, st: State, offset: nat, k: nat) {
    && offset < |c.code| && k <= |JumpTargets(c.code[offset])|
    && Inv(c, st, offset, offset) && Dated(c, st, offset, offset) && Sourced(st, offset + 1)
    && (offset in c.loops ==> LoopKept(c, st, offset, offset + 1))
    && History(c, st, offset + 1, offset + 1)
    && JumpsUpTo(c, st, offset, k)
    && offset in st.outs && st.outs[offset] == st.values
  }

  ghost predicate JumpsUpTo(c: Context, st: State, offset: nat, k: nat)
    requires offset < |c.code| && k <= |JumpTargets(c.code[offset])|
  {
    var targets := JumpTargets(c.code[offset]);
    && (forall o: nat, t: nat :: (o, t) in st.branches ==>
          o in st.outs && ((o < offset && JumpEdge(c.code, o, t)) || (o == offset && t in targets[..k])))
    && (forall o: nat, t: nat :: o < offset && o in st.outs && JumpEdge(c.code, o, t) ==> (o, t) in st.branches)
    && (forall i :: 0 <= i < k ==> (offset, targets[i]) in st.branches)
  }

  ghost function RecordOut(st: State, offset: nat): State {
    st.(outs := st.outs[offset := st.values])
  }

  lemma {:induction false} RecordOutInv(c: Context, st: State, offset: nat, st': State)
    requires Inv(c, st, offset, offset) && Dated(c, st, offset, offset) && JumpsBefore(c, st, offset)
    requires st' == RecordOut(st, offset)
    ensures Inv(c, st', offset, offset) && Dated(c, st', offset, offset)
  {
    assert Shape(c, st');
    forall h | h in c.loops && h < offset <= c.loops[h]
      ensures LoopKept(c, st', h, offset)
    {
      assert LoopKept(c, st, h, offset);
    }
  }

  lemma {:induction false} RecordOutHistory(c: Context, st: State, offset: nat, st': State)
    requires Shape(c, st) && History(c, st, offset + 1, offset)
    requires offset < |c.code| && c.reached[offset]
    requires forall s: nat :: c.Track(s) ==>
               st.values[s] == if Writes(c.code[offset], s) then Written(s, offset) else st.ins[offset][s]
    requires forall t: nat, s: nat :: t in st.ins && JumpEdge(c.code, offset, t) && c.Track(s) ==>
               Flows(st.phis, st.values[s], st.ins[t][s])
    requires st' == RecordOut(st, offset) && Shape(c, st')
    ensures History(c, st', offset + 1, offset + 1)
  {
    forall o | o in st'.outs
      ensures Effect(c, st', o)
    {
      if o < offset {
        assert Effect(c, st, o);
      }
    }
    RecordOutEdges(c, st, offset, st');
  }

  lemma {:induction false} RecordOutEdges(c: Context, st: State, offset: nat, st': State)
    requires Shape(c, st) && EdgesFlow(c, st) && st' == RecordOut(st, offset) && Shape(c, st')
    requires forall t: nat, s: nat :: t in st.ins && JumpEdge(c.code, offset, t) && c.Track(s) ==>
               Flows(st.phis, st.values[s], st.ins[t][s])
    requires forall o: nat :: o in st.ins ==> o < offset + 1
    ensures EdgesFlow(c, st')
  {
  }

  /** The values after the operation at the offset are in place. */
  ghost predicate Accessed(c: Context, st: State, offset: nat) {
    && Inv(c, st, offset, offset) && Dated(c, st, offset, offset) && Sourced(st, offset + 1)
    && (offset in c.loops ==> LoopKept(c, st, offset, offset + 1))
    && History(c, st, offset + 1, offset) && JumpsBefore(c, st, offset)
    && offset < |c.code| && offset in st.ins
    && forall s: nat :: c.Track(s) ==>
         st.values[s] == if Writes(c.code[offset], s) then Written(s, offset) else st.ins[offset][s]
  }

  /** Executing an operation whose jumps all go forward. */
  lemma {:induction false} ExecuteForward(c: Context, st: State, offset: nat, st': State)
    requires Accessed(c, st, offset) && c.reached[offset]
    requires forall t: nat :: JumpEdge(c.code, offset, t) ==> t > offset
    requires st' == RecordOut(st, offset)
    ensures Executed(c, st', offset, 0)
  {
    hide Bookkeeping, Threshold, ActiveLoops, Dated, EdgesFlow;
    RecordOutInv(c, st, offset, st');
    RecordOutHistory(c, st, offset, st');
    if offset in c.loops {
      assert LoopKept(c, st', offset, offset + 1);
    }
  }

  lemma {:induction false} ExecuteWrite(c: Context, st: State, offset: nat, s: nat, st': State)
    requires Entered(c, st, offset) && offset < |c.code| && c.reached[offset]
    requires Writes(c.code[offset], s) && c.Track(s) && offset !in c.loops
    requires st' == Assign(st, s, Written(s, offset), offset)
    ensures Accessed(c, st', offset)
  {
    assert WrittenAround(c, offset, s);
    var v := Written(s, offset);
    AssignInv(c, st, s, v, offset, offset);
    AssignDated(c, st, s, v, offset, offset);
    AssignSourced(st, offset, s, v, st');
    HistoryKept(c, st, offset + 1, offset, st');
    assert forall x: nat :: c.Track(x) && x != s ==> !Writes(c.code[offset], x) && st'.values[x] == st.ins[offset][x];
  }

  lemma {:induction false} ExecuteRead(c: Context, st: State, offset: nat)
    requires Entered(c, st, offset) && offset < |c.code|
    requires forall s: nat :: c.Track(s) ==> !Writes(c.code[offset], s)
    ensures Accessed(c, st, offset)
  {
  }

  lemma {:induction false} AssignSourced(st: State, offset: nat, s: nat, v: SsaValue, st': State)
    requires Sourced(st, offset + 1) && s < |st.values| == |st.branchSize|
    requires forall o: nat, t: nat :: (o, t) in st.branches ==> o < offset
    requires st' == Assign(st, s, v, offset)
    ensures Sourced(st', offset + 1)
  {
  }

  lemma {:induction false} HistoryKept(c: Context, st: State, entered: nat, executed: nat, st': State)
    requires Shape(c, st) && History(c, st, entered, executed) && Shape(c, st')
    requires st'.ins == st.ins && st'.outs == st.outs && Grows(st.phis, st'.phis)
    ensures History(c, st', entered, executed)
  {
    EffectsKept(c, st, entered, executed, st');
    EdgesKept(c, st, st');
    forall o, s: nat | o in st'.ins && c.Track(s)
      ensures c.Typed(st'.phis, st'.ins[o][s], s)
    {
      TypedGrows(c, st.phis, st'.phis, st.ins[o][s], s);
    }
  }

  lemma {:induction false} EdgesKept(c: Context, st: State, st': State)
    requires Shape(c, st) && EdgesFlow(c, st) && Shape(c, st')
    requires st'.ins == st.ins && st'.outs == st.outs && Grows(st.phis, st'.phis)
    ensures EdgesFlow(c, st')
  {
    FlowsGrow(st.phis, st'.phis);
    forall o, t, s: nat | o in st'.outs && t in st'.ins && Edge(c.code, o, t) && c.Track(s)
      ensures Flows(st'.phis, st'.outs[o][s], st'.ins[t][s])
    {
      assert Flows(st.phis, st.outs[o][s], st.ins[t][s]);
    }
  }

  lemma {:induction false} JumpDated(c: Context, st: State, st': State, offset: nat, target: nat, n: nat)
    requires Shape(c, st) && Dated(c, st, offset, offset) && target in st.pending
    requires n == |st.pending[target]| && BranchMerged(c, st, st', target, n)
    requires Shape(c, Branched(st', offset, target))
    ensures Dated(c, Branched(st', offset, target), offset, offset)
  {
    forall i | 0 <= i < n && st'.pending[target][i].value.Phi?
      ensures target >= offset ==> st'.pending[target][i].value.offset <= target
    {
      assert EntryMerged(c, st, st'.phis, target, st.pending[target][i], st'.pending[target][i]);
    }
  }

  /** An operation that nothing jumps to. */
  lemma {:induction false} NoJoin(c: Context, st: State, offset: nat, fall: bool)
    requires Top(c, st, offset) && offset !in st.pending
    ensures Inv(c, st, offset, offset) && Dated(c, st, offset, offset)
    ensures Received(c, st, offset, st.values, fall)
  {
    forall s: nat | c.Track(s)
      ensures Flows(st.phis, st.values[s], st.values[s])
    {
      FlowsRefl(st.phis, st.values[s]);
    }
  }

  /** Only a plain jump to the head of its loop can go backwards, and no loop head jumps or writes. */
  ghost predicate JumpKinds(c: Context, offset: nat)
    requires offset < |c.code|
  {
    var targets := JumpTargets(c.code[offset]);
    && (if |targets| == 1 && targets[0] <= offset
        then targets[0] in c.loops && targets[0] < offset == c.loops[targets[0]]
        else forall t: nat :: JumpEdge(c.code, offset, t) ==> t > offset)
    && (offset in c.loops ==> c.code[offset].LoopHead?)
  }

  lemma {:induction false} JumpKindsOf(c: Context, offset: nat)
    requires c.Valid() && offset < |c.code| && c.reached[offset]
    ensures JumpKinds(c, offset)
  {
    forall t: nat | JumpEdge(c.code, offset, t) && t <= offset
      ensures IsJump(c.code[offset]) && t in c.loops && t < offset == c.loops[t]
    {
      assert BackEdge(c.code, offset, t);
    }
  }

  /** The accessed values recorded so far, with the one of the operation at the offset. */
  ghost function Recorded(c: Context, popped: map<nat, SsaValue>, offset: nat, vals: seq<SsaValue>): map<nat, SsaValue>
    requires offset < |c.code| && |vals| == |c.tracked|
  {
    var op := c.code[offset];
    if Accesses(op) && c.Track(op.slot) then popped[offset := vals[op.slot]] else popped
  }

  /** A reached operation that accesses a tracked variable. */
  ghost predicate AccessesTracked(c: Context, o: nat) {
    o < |c.code| && o < |c.reached| && c.reached[o] && Accesses(c.code[o]) && c.Track(c.code[o].slot)
  }

  /** The value of the accessed variable is recorded for the reached operations below `cur`, and for no others. */
  ghost predicate RecordedBelow(c: Context, popped: map<nat, SsaValue>, ins: map<nat, seq<SsaValue>>, cur: nat) {
    && (forall o :: o in popped ==> o < cur && AccessesTracked(c, o))
    && (forall o: nat :: o < cur && AccessesTracked(c, o) ==>
          o in popped && o in ins && |ins[o]| == |c.tracked| && popped[o] == ins[o][c.code[o].slot])
  }

  lemma {:induction false} RecordedStep(c: Context, popped0: map<nat, SsaValue>, ins0: map<nat, seq<SsaValue>>,
                     popped: map<nat, SsaValue>, ins: map<nat, seq<SsaValue>>, offset: nat)
    requires RecordedBelow(c, popped0, ins0, offset) && offset < |c.code| == |c.reached|
    requires if c.reached[offset]
             then offset in ins && |ins[offset]| == |c.tracked| && ins == ins0[offset := ins[offset]]
                  && popped == Recorded(c, popped0, offset, ins[offset])
             else ins == ins0 && popped == popped0
    ensures RecordedBelow(c, popped, ins, offset + 1)
  {
  }

  // ---- recording jumps

  lemma {:induction false} ExecutedFacts(c: Context, st: State, offset: nat, k: nat)
    requires Executed(c, st, offset, k)
    ensures Inv(c, st, offset, offset) && Dated(c, st, offset, offset) && Sourced(st, offset + 1)
    ensures offset in st.outs && st.outs[offset] == st.values && st.ins != map[]
  {
    assert offset in st.ins;
  }

  lemma {:induction false} ExecutedJump(c: Context, st: State, offset: nat, k: nat)
    requires Executed(c, st, offset, k) && k < |JumpTargets(c.code[offset])|
    ensures JumpEdge(c.code, offset, JumpTargets(c.code[offset])[k])
  {
  }

  lemma {:induction false} RecordedJump(c: Context, st: State, st': State, offset: nat, k: nat)
    requires Executed(c, st, offset, k) && k < |JumpTargets(c.code[offset])|
    requires JumpTargets(c.code[offset])[k] > offset
    requires Inv(c, st', offset, offset) && Dated(c, st', offset, offset)
    requires Grows(st.phis, st'.phis) && st'.values == st.values && st'.ins == st.ins && st'.outs == st.outs
    requires st'.branches == st.branches + {(offset, JumpTargets(c.code[offset])[k])}
    requires Sourced(st', offset + 1)
    requires offset in c.loops ==> LoopKept(c, st', offset, offset + 1)
    ensures Executed(c, st', offset, k + 1)
  {
    HistoryKept(c, st, offset + 1, offset + 1, st');
    JumpsUpToStep(c, st, st', offset, k);
  }

  lemma {:induction false} JumpsUpToStep(c: Context, st: State, st': State, offset: nat, k: nat)
    requires offset < |c.code| && k < |JumpTargets(c.code[offset])| && JumpsUpTo(c, st, offset, k) && offset in st.outs
    requires st'.outs == st.outs && st'.branches == st.branches + {(offset, JumpTargets(c.code[offset])[k])}
    ensures JumpsUpTo(c, st', offset, k + 1)
  {
  }

  /** A jump lands at the target: entries pending there stay, or an empty list is opened. */
  ghost predicate Landed(st: State, st': State, target: nat) {
    if target in st.pending then
      && st'.branchTargets == st.branchTargets
      && target in st'.pending && st'.pending == st.pending[target := st'.pending[target]]
      && |st'.pending[target]| == |st.pending[target]|
    else
      && st'.branchTargets == st.branchTargets + [target]
      && st'.pending == st.pending[target := []]
  }

  lemma {:induction false} JumpSourced(st: State, st': State, offset: nat, target: nat)
    requires Sourced(st, offset + 1) && target > offset
    requires st'.branches == st.branches + {(offset, target)} && Landed(st, st', target)
    ensures Sourced(st', offset + 1)
  {
  }

  /** All jumps are recorded: on to the next offset. */
  lemma {:induction false} Advance(c: Context, st: State, offset: nat, k: nat)
    requires Executed(c, st, offset, k) && k == |JumpTargets(c.code[offset])|
    ensures Top(c, st, offset + 1)
  {
    var targets := JumpTargets(c.code[offset]);
    assert targets[..k] == targets;
    AdvanceInv(c, st, offset);
    forall t: nat | JumpEdge(c.code, offset, t)
      ensures (offset, t) in st.branches
    {
      var i :| 0 <= i < k && targets[i] == t;
    }
  }

  lemma {:induction false} AdvanceInv(c: Context, st: State, offset: nat)
    requires Inv(c, st, offset, offset)
    requires offset in c.loops ==> LoopKept(c, st, offset, offset + 1)
    ensures Inv(c, st, offset, offset + 1)
  {
  }

  /** An operation that was not reached changes nothing. */
  lemma {:induction false} Skip(c: Context, st: State, offset: nat)
    requires c.Valid() && Top(c, st, offset) && offset < |c.code| && !c.reached[offset]
    ensures Top(c, st, offset + 1)
  {
    assert offset !in c.loops by {
      if offset in c.loops {
        assert Edge(c.code, c.loops[offset], offset);
      }
    }
    SkipInv(c, st, offset);
    SourcedKept(st, st, offset);
    assert 0 < offset;
  }

  lemma {:induction false} SkipInv(c: Context, st: State, offset: nat)
    requires Inv(c, st, offset - 1, offset) && offset !in c.loops
    ensures Inv(c, st, offset, offset + 1)
  {
  }

  /** The back edge of a loop. */
  lemma {:induction false} CloseLoop(c: Context, st: State, st1: State, offset: nat, h: nat, n: nat, st': State)
    requires Entered(c, st, offset) && offset < |c.code| && c.reached[offset] && offset !in c.loops
    requires JumpTargets(c.code[offset]) == [h] && h in c.loops && h < offset == c.loops[h] && h in st.pending
    requires n == |st.pending[h]| && BranchMerged(c, st, st1, h, n)
    requires st' == RecordOut(Branched(st1.(pending := st1.pending - {h}), offset, h), offset)
    ensures Top(c, st', offset + 1)
  {
    hide Bookkeeping, Threshold, EdgesFlow, Effect;
    BackEdgeFlows(c, st, st1, offset, h, n);
    BackEdgeInv(c, st, st1, offset, h, n);
    var st2 := st1.(pending := st1.pending - {h});
    HistoryKept(c, st, offset + 1, offset, st2);
    CloseHistory(c, st2, offset, h, st');
    CloseJumps(c, st2, offset, h, st');
    CloseInv(c, st2, offset, h, st');
    CloseSourced(st, st', offset, h);
  }

  lemma {:induction false} CloseHistory(c: Context, st: State, offset: nat, h: nat, st': State)
    requires Shape(c, st) && History(c, st, offset + 1, offset)
    requires offset < |c.code| && c.reached[offset] && JumpTargets(c.code[offset]) == [h]
    requires st.ins[offset] == st.values
    requires h in st.ins && forall s: nat :: c.Track(s) ==> Flows(st.phis, st.values[s], st.ins[h][s])
    requires st' == RecordOut(Branched(st, offset, h), offset)
    ensures Shape(c, st') && History(c, st', offset + 1, offset + 1)
  {
    var st1 := RecordOut(st, offset);
    assert Shape(c, st1);
    RecordOutHistory(c, st, offset, st1);
    assert Shape(c, st');
    HistoryKept(c, st1, offset + 1, offset + 1, st');
  }

  lemma {:induction false} CloseJumps(c: Context, st: State, offset: nat, h: nat, st': State)
    requires JumpsBefore(c, st, offset) && offset < |c.code| && JumpTargets(c.code[offset]) == [h]
    requires st' == RecordOut(Branched(st, offset, h), offset) && Shape(c, st')
    ensures JumpsBefore(c, st', offset + 1) && FallValues(c, st', offset + 1)
  {
  }

  lemma {:induction false} CloseInv(c: Context, st: State, offset: nat, h: nat, st': State)
    requires Inv(c, st, offset, offset + 1) && Dated(c, st, offset, offset) && h < offset && JumpsBefore(c, st, offset)
    requires st' == RecordOut(Branched(st, offset, h), offset) && Shape(c, st')
    ensures Inv(c, st', offset, offset + 1) && Dated(c, st', offset + 1, offset)
  {
    forall g | g in c.loops && g < offset + 1 <= c.loops[g]
      ensures LoopKept(c, st', g, offset + 1)
    {
      assert LoopKept(c, st, g, offset + 1);
    }
  }

  lemma {:induction false} CloseSourced(st: State, st': State, offset: nat, h: nat)
    requires Sourced(st, offset + 1) && h < offset && st'.branchTargets == st.branchTargets && st.branches <= st'.branches
    requires forall t :: t in st'.pending && t > offset ==> t in st.pending && st'.pending[t] == st.pending[t]
    ensures Sourced(st', offset + 1)
  {
  }

  lemma {:induction false} SameSlots(k: seq<SlotValue>, l: seq<SlotValue>)
    requires |k| == |l| && forall i :: 0 <= i < |k| ==> k[i].slot == l[i].slot
    ensures forall s :: HasEntry(k, s) <==> HasEntry(l, s)
  {
  }

  lemma {:induction false} EntriesKept(before: map<nat, seq<SlotValue>>, after: map<nat, seq<SlotValue>>)
    requires before.Keys == after.Keys && forall t :: t in before ==> before[t] <= after[t]
    ensures forall t, s :: t in before && HasEntry(before[t], s) ==> HasEntry(after[t], s)
  {
  }
}
