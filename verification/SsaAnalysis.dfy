/**
 The SSA pass over a script's tracked arguments and locals: one forward sweep
 that creates phi nodes lazily, through values that are pending at the targets
 of forward jumps.
 */
module SsaAnalysis {
  import opened Bytecode
  import opened Lifetimes
  import opened SsaValues
  import opened SsaState
  import opened SsaListing
  import opened SsaSources

  class Analysis {
    // Results of the earlier passes.
    const c: Context
    const lifetimes: seq<LifetimeVariable>

    // State of the pass.
    var values: seq<SsaValue>
    var branchSize: seq<nat>
    var branchTargets: seq<nat>
    var pending: map<nat, seq<SlotValue>>
    var phis: seq<PhiNode>

    // Results of the pass.
    var popped: map<nat, SsaValue>
    var newValues: map<nat, seq<SlotValue>>

    // History: values before and after each operation, the jumps seen so far, and where each phi node was created.
    ghost var ins: map<nat, seq<SsaValue>>
    ghost var outs: map<nat, seq<SsaValue>>
    ghost var branches: set<(nat, nat)>
    ghost var created: seq<nat>

    ghost function Abs(): State
      reads this
    {
      State(values, branchSize, branchTargets, pending, phis, ins, outs, branches)
    }

    ghost function Rec(): Record
      reads this
    {
      Record(newValues, created)
    }

    /**
     The invariant of the lists of new values, and where values come from: offsets
     before cur are entered, loops that end before lim closed.
     */
    ghost predicate Listed(cur: nat, lim: nat)
      reads this
    {
      ListsOk(c, Abs(), Rec(), cur, lim) && Traced(c, Abs(), Rec())
    }

    /** Where the values that come in at the offset are from, once they are merged. */
    ghost predicate Traces(offset: nat)
      reads this
    {
      Traced(c, Abs(), Rec()) && Unlisted(c, Abs(), ListAt(Abs(), Rec(), offset), offset, values)
    }

    // ---------------------------------------------------------------- phi nodes

    method MakePhi(slot: nat, offset: nat) returns (v: SsaValue)
      requires c.PhisOk(phis)
      modifies this`phis
      ensures Grows(old(phis), phis) && c.PhisOk(phis)
      ensures v == Phi(offset, |old(phis)|) && |phis| == |old(phis)| + 1 && c.Typed(phis, v, slot)
      ensures OptionsFrom(old(phis), phis, v, {})
    {
      v := Phi(offset, |phis|);
      phis := phis + [PhiNode(slot, [])];
    }

    static method HasOption(options: seq<SsaValue>, v: SsaValue) returns (found: bool)
      ensures found <==> v in options
    {
      var i := 0;
      while i < |options|
        invariant 0 <= i <= |options| && forall j :: 0 <= j < i ==> options[j] != v
      {
        if v == options[i] {
          return true;
        }
        i := i + 1;
      }
      found := false;
    }

    method InsertPhi(phi: SsaValue, v: SsaValue)
      requires c.PhisOk(phis) && phi.Phi? && phi.node < |phis| && c.Typed(phis, v, phis[phi.node].slot)
      modifies this`phis
      ensures Grows(old(phis), phis) && c.PhisOk(phis) && |phis| == |old(phis)|
      ensures v in Options(phis, phi) && OptionsFrom(old(phis), phis, phi, {v})
      ensures phis == WithOptionAt(old(phis), phi.node, v)
    {
      hide Context.PhisOk, Context.Typed, Grows, OptionsFrom;
      var node := phis[phi.node];
      OptionInserted(c, phis, phi, v);
      if |node.options| <= 8 {
        var found := HasOption(node.options, v);
        if found {
          assert phis == WithOptionAt(phis, phi.node, v);
          return;
        }
      }
      phis := phis[phi.node := node.(options := node.options + [v])];
    }

    /** Make sure that v is accounted for in the pending value or phi value of pv. */
    method MergeValue(offset: nat, v: SsaValue, pv: SlotValue) returns (r: SlotValue)
      requires c.PhisOk(phis) && c.Typed(phis, v, pv.slot) && c.Typed(phis, pv.value, pv.slot)
      modifies this`phis
      ensures Grows(old(phis), phis) && c.PhisOk(phis)
      ensures r.slot == pv.slot && c.Typed(phis, r.value, r.slot)
      ensures Flows(phis, v, r.value) && Flows(phis, pv.value, r.value)
      ensures v == pv.value ==> r == pv && phis == old(phis)
      ensures pv.value.Phi? && pv.value.offset >= offset ==> r == pv
      ensures r == pv || (r.value.Phi? && r.value.offset == offset)
      ensures Renewed(|old(phis)|, |phis|, offset, pv, r)
      ensures OptionsFrom(old(phis), phis, r.value, Sources(pv, r, v, true)) && AddsAt(old(phis), phis, offset, r)
    {
      hide WithOptionAt, Context.PhisOk;
      FlowsRefl(phis, v);
      if v == pv.value {
        OptionsSame(phis, pv.value);
        return pv;
      }
      if !pv.value.Phi? || pv.value.offset < offset {
        r := MergedPhi(offset, v, pv);
      } else {
        InsertPhi(pv.value, v);
        r := pv;
        FlowsRefl(phis, v);
        FlowsRefl(phis, pv.value);
        FlowsOption(phis, v, v, r.value);
      }
      SourcesAre(pv, r, v);
    }

    /** A new phi node for v and the value of pv. */
    method MergedPhi(offset: nat, v: SsaValue, pv: SlotValue) returns (r: SlotValue)
      requires c.PhisOk(phis) && c.Typed(phis, v, pv.slot) && c.Typed(phis, pv.value, pv.slot)
      modifies this`phis
      ensures Grows(old(phis), phis) && c.PhisOk(phis) && |phis| == |old(phis)| + 1
      ensures r == SlotValue(pv.slot, Phi(offset, |old(phis)|)) && c.Typed(phis, r.value, r.slot)
      ensures Flows(phis, v, r.value) && Flows(phis, pv.value, r.value)
      ensures OptionsFrom(old(phis), phis, r.value, {v, pv.value})
    {
      hide WithOptionAt, Context.PhisOk, OptionsFrom;
      var phi := MakePhi(pv.slot, offset);
      ghost var phis1 := phis;
      InsertPhi(phi, v);
      ghost var phis2 := phis;
      OptionsFirst(old(phis), phis1, phis2, phi, v);
      FlowsRefl(phis, v);
      FlowsOption(phis, v, v, phi);
      InsertPhi(phi, pv.value);
      OptionsFromThen(old(phis), phis2, phis, phi, {v}, {pv.value});
      assert {v} + {pv.value} == {v, pv.value};
      FlowGrows(phis2, phis, v, phi);
      FlowsRefl(phis, pv.value);
      FlowsOption(phis, pv.value, pv.value, phi);
      r := SlotValue(pv.slot, phi);
    }

    // ---------------------------------------------------------------- branch targets

    /** Add an entry for the slot unless there is one. */
    static method CheckPendingValue(v: SsaValue, slot: nat, list: seq<SlotValue>) returns (r: seq<SlotValue>)
      ensures r == WithEntry(list, slot, v)
    {
      var i := 0;
      while i < |list|
        invariant 0 <= i <= |list|
        invariant forall j :: 0 <= j < i ==> list[j].slot != slot
      {
        if list[i].slot == slot {
          return list;
        }
        i := i + 1;
      }
      r := list + [SlotValue(slot, v)];
    }

    /**
     Before the value of a slot changes: mark its old value at the targets of
     the branches over the current operation.  Targets seen when the slot last
     changed are skipped, yet the effect is that of marking all of them.
     */
    method MergeBranchTarget(slot: nat, cut: int)
      requires slot < |values| == |branchSize| && MarkedBelow(pending, branchTargets, branchSize[slot], slot, cut)
      modifies this`pending, this`branchSize
      ensures branchSize == old(branchSize)[slot := |branchTargets|]
      ensures pending == MarkAll(old(pending), branchTargets, slot, values[slot], cut)
    {
      hide MarkAll;
      var v, n := values[slot], branchSize[slot];
      var targets: seq<nat> := branchTargets;
      ghost var before := pending;
      var i := |targets| - 1;
      MarkNone(before, targets, slot, v, cut);
      while i >= n
        invariant branchSize == old(branchSize) && n as int - 1 <= i < |targets|
        invariant pending == MarkAll(before, targets[i + 1..], slot, v, cut)
      {
        MarkTarget(targets, i, i + 1, slot, v, cut, before);
        i := i - 1;
      }
      MarkSkipped(before, targets, n, slot, v, cut);
      branchSize := branchSize[slot := |targets|];
    }

    method MarkTarget(targets: seq<nat>, i: nat, ghost next: nat, slot: nat, v: SsaValue, cut: int, ghost before: map<nat, seq<SlotValue>>)
      requires i < |targets| && next == i + 1 && (targets[i] > cut ==> targets[i] in before)
      requires pending == MarkAll(before, targets[next..], slot, v, cut)
      modifies this`pending
      ensures pending == MarkAll(before, targets[i..], slot, v, cut)
    {
      MarkOne(before, targets, i, slot, v, cut);
      if targets[i] > cut {
        var t := targets[i];
        var list := CheckPendingValue(v, slot, pending[t]);
        pending := pending[t := list];
      }
    }

    /** Mark the slot's old value at the branch targets, then replace it. */
    method SetValue(slot: nat, v: SsaValue, cut: int)
      requires Shape(c, Abs()) && Threshold(c, Abs(), cut) && c.Track(slot)
      modifies this`pending, this`branchSize, this`values
      ensures Abs() == Assign(old(Abs()), slot, v, cut)
    {
      ThresholdMarked(c, Abs(), slot, cut);
      MergeBranchTarget(slot, cut);
      values := values[slot := v];
    }

    /** The entry that accounts for entry e and, if control falls in, for v; a phi node if asked for. */
    method CombineEntry(offset: nat, e: SlotValue, v: SsaValue, fall: bool, loopPhi: bool) returns (r: SlotValue)
      requires c.PhisOk(phis) && (fall ==> c.Typed(phis, v, e.slot)) && c.Typed(phis, e.value, e.slot)
      modifies this`phis
      ensures Grows(old(phis), phis) && c.PhisOk(phis)
      ensures r.slot == e.slot && c.Typed(phis, r.value, r.slot)
      ensures Flows(phis, e.value, r.value) && (fall ==> Flows(phis, v, r.value))
      ensures r == e || (r.value.Phi? && r.value.offset == offset)
      ensures v == e.value && !loopPhi ==> r == e
      ensures Renewed(|old(phis)|, |phis|, offset, e, r) && (loopPhi ==> Own(r, offset))
      ensures OptionsFrom(old(phis), phis, r.value, Sources(e, r, v, fall)) && AddsAt(old(phis), phis, offset, r)
    {
      hide Flows, Grows, OptionsFrom;
      r := e;
      FlowsRefl(phis, e.value);
      GrowsRefl(phis);
      OptionsSame(phis, e.value);
      if loopPhi && (!e.value.Phi? || e.value.offset != offset) {
        r := OwnPhi(offset, e);
      }
      if fall {
        ghost var phis1, r1 := phis, r;
        TypedGrows(c, old(phis), phis, v, e.slot);
        r := MergeValue(offset, v, r);
        CombinedFlows(old(phis), phis1, phis, e.value, r1.value, r.value);
        CombinedOptions(old(phis), phis1, phis, offset, e, r1, r, v);
      } else {
        assert Sources(e, r, v, fall) == if r == e then {} else {e.value};
      }
    }

    /** A phi node of the offset for entry e. */
    method OwnPhi(offset: nat, e: SlotValue) returns (r: SlotValue)
      requires c.PhisOk(phis) && c.Typed(phis, e.value, e.slot)
      modifies this`phis
      ensures Grows(old(phis), phis) && c.PhisOk(phis) && |phis| == |old(phis)| + 1
      ensures r == SlotValue(e.slot, Phi(offset, |old(phis)|)) && c.Typed(phis, r.value, r.slot)
      ensures Flows(phis, e.value, r.value) && OptionsFrom(old(phis), phis, r.value, {e.value})
    {
      hide WithOptionAt;
      var phi := MakePhi(e.slot, offset);
      ghost var phis1 := phis;
      InsertPhi(phi, e.value);
      OptionsFirst(old(phis), phis1, phis, phi, e.value);
      r := SlotValue(e.slot, phi);
      FlowsRefl(phis, e.value);
      FlowsOption(phis, e.value, e.value, phi);
    }

    /**
     Merge the current value of a slot into entry i pending at this offset, if
     control falls into it, and take the merged value over.  At the head of a
     loop that writes the slot the entry first becomes a phi node.
     */
    method MergeEntry(offset: nat, i: nat, fall: bool, loopPhi: bool, cut: int) returns (r: SlotValue)
      requires Inv(c, Abs(), cut, offset) && Dated(c, Abs(), offset, offset) && offset <= cut + 1
      requires offset in pending && i < |pending[offset]| && (fall ==> ins != map[])
      requires loopPhi ==> WrittenAround(c, offset, pending[offset][i].slot)
      modifies this`phis, this`pending, this`branchSize, this`values
      ensures EntryTaken(c, old(Abs()), Abs(), offset, i, r, fall, cut)
      ensures Renewed(|old(phis)|, |phis|, offset, old(pending)[offset][i], r) && (loopPhi ==> Own(r, offset))
      ensures OptionsFrom(old(phis), phis, r.value, Sources(old(pending)[offset][i], r, old(values)[r.slot], fall))
      ensures AddsAt(old(phis), phis, offset, r)
    {
      ghost var st := Abs();
      var e := pending[offset][i];
      r := CombineEntry(offset, e, values[e.slot], fall, loopPhi);
      MergeEntryInv(c, st, phis, offset, i, r, cut);
      pending := pending[offset := pending[offset][i := r]];
      SetValue(r.slot, r.value, cut);
    }

    method FreezeNewValues(offset: nat)
      requires offset in pending
      modifies this`pending, this`newValues
      ensures pending == old(pending) - {offset}
      ensures newValues == if old(pending)[offset] == [] then old(newValues) else old(newValues)[offset := old(pending)[offset]]
    {
      if pending[offset] != [] {
        newValues := newValues[offset := pending[offset]];
      }
      pending := pending - {offset};
    }

    /** Merge entry i pending at this offset, and keep account of a new phi node. */
    method TakeNext(offset: nat, i: nat, fall: bool, ghost start: State)
      requires Progress(c, start, Abs(), offset, i, offset, fall) && i < |pending[offset]| && (fall ==> ins != map[])
      requires Listed(offset, offset) && Taken(Abs(), offset, i) && Falling(c, start, offset, fall)
      modifies this`phis, this`pending, this`branchSize, this`values, this`created
      ensures Progress(c, start, Abs(), offset, i + 1, offset, fall)
      ensures Listed(offset, offset) && Taken(Abs(), offset, i + 1)
    {
      hide ListsOk, Taken, Inv, Dated, Arrivals, Merged, Received, Traced, OptionsFrom, AddsAt;
      ghost var st, rec := Abs(), Rec();
      var r := MergeEntry(offset, i, fall, false, offset);
      ghost var st1 := Abs();
      created := Renew(rec, offset, st.pending[offset][i], r).created;
      NextTaken(c, start, st, rec, offset, i, r, offset, fall, st1, Rec());
      TakeTraced(c, start, st, rec, offset, i, r, offset, fall, st1, Rec());
    }

    /** Merge and take over all the entries pending at this offset. */
    method MergePending(offset: nat, fall: bool) returns (ghost n: nat)
      requires Inv(c, Abs(), offset - 1, offset) && Dated(c, Abs(), offset, offset) && offset in pending
      requires (fall ==> ins != map[]) && Listed(offset, offset) && Falling(c, Abs(), offset, fall)
      modifies this`phis, this`pending, this`branchSize, this`values, this`created
      ensures n == |old(pending)[offset]|
      ensures Progress(c, old(Abs()), Abs(), offset, n, offset, fall)
      ensures Listed(offset, offset) && Taken(Abs(), offset, n)
    {
      ghost var start := Abs();
      ProgressStart(c, start, offset, offset, fall);
      var i := 0;
      while i < |pending[offset]|
        invariant Progress(c, start, Abs(), offset, i, offset, fall)
        invariant Listed(offset, offset) && Taken(Abs(), offset, i)
      {
        TakeNext(offset, i, fall, start);
        i := i + 1;
      }
      n := i;
    }

    /** A join point: merge the values at the jumps to this offset with the current values, if control falls in. */
    method Join(offset: nat, fall: bool)
      requires Inv(c, Abs(), offset - 1, offset) && Dated(c, Abs(), offset, offset) && offset in pending && offset !in c.loops
      requires (fall ==> ins != map[]) && Listed(offset, offset) && Falling(c, Abs(), offset, fall)
      modifies this`phis, this`pending, this`branchSize, this`values, this`newValues, this`created
      ensures Grows(old(phis), phis)
      ensures Inv(c, Abs(), offset, offset) && Dated(c, Abs(), offset, offset)
      ensures pending.Keys == old(pending.Keys) - {offset}
      ensures Received(c, Abs(), offset, old(values), fall)
      ensures Merging(c, old(values), Abs(), Rec(), offset) && Traces(offset)
    {
      hide ListsOk, Progress, Taken, Inv, Dated, Received, Merging, Traced, Unlisted;
      ghost var start := Abs();
      ghost var n := MergePending(offset, fall);
      ghost var st, rec := Abs(), Rec();
      FreezeNewValues(offset);
      JoinDone(c, start, st, rec, offset, n, fall, Abs(), Rec());
      JoinTraced(c, start, st, rec, offset, n, fall, Abs(), Rec());
    }

    // ---------------------------------------------------------------- loop heads

    ghost predicate LifetimesOk() {
      && c.Valid() && |c.code| < UINT32_MAX && |lifetimes| == |c.tracked|
      && forall s :: 0 <= s < |c.tracked| && c.tracked[s] ==>
           Sorted(lifetimes[s].segments) && WritesIndexed(c.code, c.reached, s, lifetimes[s].segments)
    }

    method WrittenInLoop(offset: nat, slot: nat) returns (written: bool)
      requires LifetimesOk() && offset in c.loops && c.Track(slot)
      ensures written <==> c.WrittenIn(offset, slot)
      ensures written ==> WrittenAround(c, offset, slot)
    {
      var first := FirstWrite(lifetimes[slot], offset, c.loops[offset]);
      written := first != UINT32_MAX;
      ghost var segs := lifetimes[slot].segments;
      assert forall o: nat :: WriteAt(segs, o) <==> o < |c.code| && c.reached[o] && Writes(c.code[o], slot);
      if written {
        NestedWrites(c, offset, slot);
      }
    }

    /** Where the values listed at a loop head are from while it is entered. */
    ghost predicate HeadTraced(offset: nat)
      reads this
    {
      Traced(c, Abs(), Rec()) && offset in pending && OpenTraced(c, Abs(), offset)
    }

    /** Entries pending at a loop head from earlier jumps to it. */
    method MergeHeadPending(offset: nat, fall: bool)
      requires LifetimesOk() && offset in c.loops
      requires Inv(c, Abs(), offset - 1, offset) && Dated(c, Abs(), offset, offset - 1) && offset in pending
      requires forall t :: t in pending ==> !(offset < t <= c.loops[offset])
      requires (fall ==> ins != map[]) && Listed(offset, offset) && (offset in branchTargets ==> JumpedTo(c, offset))
      requires Falling(c, Abs(), offset, fall)
      modifies this`phis, this`pending, this`branchSize, this`values, this`created
      ensures HeadProgress(c, old(Abs()), Abs(), offset, 0, fall)
      ensures HeadOpen(c, Abs(), Rec(), offset) && HeadMatch(c, Abs(), offset, old(values))
      ensures HeadTraced(offset)
    {
      hide Bookkeeping, Threshold, ActiveLoops, ListsOk, Received, Traced, OpenTraced, HeadMatch, HeadProgress, Dated;
      ghost var start := Abs();
      HeadMergingStart(c, start, offset, fall);
      var i := 0;
      while i < |pending[offset]|
        invariant HeadMerging(c, start, Abs(), offset, i, fall) && HeadTaking(c, Abs(), Rec(), offset, i)
        invariant Traced(c, Abs(), Rec())
      {
        MergeHeadEntry(offset, i, fall, start);
        i := i + 1;
      }
      HeadMergingDone(c, start, Abs(), offset, i, fall);
      HeadAllTaken(c, start, Abs(), Rec(), offset, i, fall);
      HeadUnlisted(c, start, Abs(), offset, i, fall);
    }

    method MergeHeadEntry(offset: nat, i: nat, fall: bool, ghost start: State)
      requires LifetimesOk() && HeadMerging(c, start, Abs(), offset, i, fall) && i < |pending[offset]| && (fall ==> ins != map[])
      requires HeadTaking(c, Abs(), Rec(), offset, i) && Traced(c, Abs(), Rec()) && Falling(c, start, offset, fall)
      modifies this`phis, this`pending, this`branchSize, this`values, this`created
      ensures HeadMerging(c, start, Abs(), offset, i + 1, fall) && HeadTaking(c, Abs(), Rec(), offset, i + 1)
      ensures Traced(c, Abs(), Rec())
    {
      hide Inv, Dated, HeadMerging, HeadTaking, EntryTaken, Renewed, Traced, OptionsFrom, AddsAt;
      ghost var st, rec := Abs(), Rec();
      HeadMergingFacts(c, start, st, offset, i, fall);
      var written := WrittenInLoop(offset, pending[offset][i].slot);
      var r := MergeEntry(offset, i, fall, written, offset - 1);
      ghost var st1 := Abs();
      created := Renew(rec, offset, st.pending[offset][i], r).created;
      HeadTaken(c, start, st, rec, offset, i, r, fall, st1, Rec());
      HeadTakeTraced(c, start, st, rec, offset, i, r, fall, st1, Rec());
    }

    /** Give a slot that the loop writes its loop phi, unless it has one. */
    method MakeLoopPhi(offset: nat, slot: nat, fall: bool, ghost start: State)
      requires LifetimesOk() && HeadProgress(c, start, Abs(), offset, slot, fall)
      requires ((exists o :: (o, offset) in branches) ==> fall) && (fall ==> ins != map[])
      requires HeadOpen(c, Abs(), Rec(), offset) && HeadMatch(c, Abs(), offset, start.values)
      requires HeadTraced(offset) && Falling(c, start, offset, fall)
      modifies this`phis, this`pending, this`branchSize, this`values, this`created
      ensures HeadProgress(c, start, Abs(), offset, slot + 1, fall)
      ensures HeadOpen(c, Abs(), Rec(), offset) && HeadMatch(c, Abs(), offset, start.values)
      ensures HeadTraced(offset)
    {
      hide HeadProgress, HeadOpen, HeadMatch, Traced, OpenTraced;
      if !c.Track(slot) {
        HeadSkips(c, start, Abs(), offset, slot, fall);
        return;
      }
      HeadFacts(c, start, Abs(), offset, slot, fall);
      var written := WrittenInLoop(offset, slot);
      if !written || (values[slot].Phi? && values[slot].offset == offset) {
        HeadSkips(c, start, Abs(), offset, slot, fall);
        return;
      }
      AssignLoopPhi(offset, slot, fall, start);
    }

    method NewLoopPhi(offset: nat, slot: nat, fall: bool) returns (phi: SsaValue)
      requires c.PhisOk(phis) && slot < |values| && (fall ==> c.Typed(phis, values[slot], slot))
      modifies this`phis
      ensures Grows(old(phis), phis) && c.PhisOk(phis) && |phis| == |old(phis)| + 1
      ensures phi == Phi(offset, |old(phis)|) && c.Typed(phis, phi, slot)
      ensures fall ==> Flows(phis, values[slot], phi)
      ensures OptionsFrom(old(phis), phis, phi, if fall then {values[slot]} else {})
    {
      hide WithOptionAt;
      phi := MakePhi(slot, offset);
      ghost var phis1 := phis;
      if fall {
        InsertPhi(phi, values[slot]);
        OptionsFirst(old(phis), phis1, phis, phi, values[slot]);
        FlowsRefl(phis, values[slot]);
        FlowsOption(phis, values[slot], values[slot], phi);
      }
    }

    method PlaceLoopPhi(offset: nat, slot: nat, phi: SsaValue)
      requires Shape(c, Abs()) && Threshold(c, Abs(), offset - 1) && c.Track(slot) && offset in pending
      modifies this`pending, this`branchSize, this`values
      ensures Abs() == LoopAssign(old(Abs()), phis, offset, slot, phi)
    {
      SetValue(slot, phi, offset - 1);
      pending := pending[offset := pending[offset] + [SlotValue(slot, phi)]];
    }

    method PlaceNewPhi(offset: nat, slot: nat, fall: bool, ghost start: State)
      requires HeadProgress(c, start, Abs(), offset, slot, fall)
      requires c.Track(slot) && c.WrittenIn(offset, slot) && WrittenAround(c, offset, slot)
      requires ((exists o :: (o, offset) in branches) ==> fall) && (fall ==> ins != map[])
      modifies this`phis, this`pending, this`branchSize, this`values
      ensures HeadProgress(c, start, Abs(), offset, slot + 1, fall)
      ensures |phis| == |old(phis)| + 1 && Abs() == LoopAssign(old(Abs()), phis, offset, slot, Phi(offset, |old(phis)|))
      ensures Grows(old(phis), phis) && c.PhisOk(phis) && phis[|old(phis)|].slot == slot
      ensures OptionsFrom(old(phis), phis, Phi(offset, |old(phis)|), if fall then {old(values)[slot]} else {})
    {
      ghost var st := Abs();
      var phi := NewLoopPhi(offset, slot, fall);
      GrowHeadInv(c, st, offset, phis, Abs());
      PlaceLoopPhi(offset, slot, phi);
      HeadProgressStep(c, start, st, offset, slot, fall, phi, Abs());
    }

    method AssignLoopPhi(offset: nat, slot: nat, fall: bool, ghost start: State)
      requires HeadProgress(c, start, Abs(), offset, slot, fall)
      requires c.Track(slot) && c.WrittenIn(offset, slot) && WrittenAround(c, offset, slot)
      requires ((exists o :: (o, offset) in branches) ==> fall) && (fall ==> ins != map[])
      requires !(values[slot].Phi? && values[slot].offset == offset)
      requires HeadOpen(c, Abs(), Rec(), offset) && HeadMatch(c, Abs(), offset, start.values)
      requires HeadTraced(offset) && Falling(c, start, offset, fall)
      modifies this`phis, this`pending, this`branchSize, this`values, this`created
      ensures HeadProgress(c, start, Abs(), offset, slot + 1, fall)
      ensures HeadOpen(c, Abs(), Rec(), offset) && HeadMatch(c, Abs(), offset, start.values)
      ensures HeadTraced(offset)
    {
      hide HeadProgress, HeadOpen, HeadMatch, LoopAssign, Traced, OpenTraced, OptionsFrom;
      ghost var st, rec := Abs(), Rec();
      PlaceNewPhi(offset, slot, fall, start);
      ghost var st1 := Abs();
      created := created + [offset];
      HeadAssigned(c, start, st, rec, offset, slot, fall, Phi(offset, |st.phis|), start.values, st1, Rec());
      LoopPhiAssigned(c, start, st, rec, offset, slot, fall, Phi(offset, |st.phis|), st1, Rec());
    }

    /** A loop head: every slot that the loop writes gets a phi node. */
    method EnterLoop(offset: nat, fall: bool)
      requires LifetimesOk() && offset in c.loops && offset <= c.loops[offset]
      requires Inv(c, Abs(), offset - 1, offset) && Dated(c, Abs(), offset, offset - 1)
      requires BodyPending(c, Abs(), offset)
      requires offset in pending ==> forall t :: t in pending ==> !(offset < t <= c.loops[offset])
      requires ((exists o :: (o, offset) in branches) ==> fall) && (fall ==> ins != map[])
      requires Listed(offset, offset) && (offset in branchTargets ==> JumpedTo(c, offset))
      requires Falling(c, Abs(), offset, fall)
      modifies this`phis, this`pending, this`branchSize, this`values, this`created
      ensures HeadProgress(c, old(Abs()), Abs(), offset, |c.tracked|, fall)
      ensures Merging(c, old(values), Abs(), Rec(), offset) && Traces(offset)
    {
      ghost var start := Abs();
      OpenHead(offset, fall);
      var slot := 0;
      while slot < |c.tracked|
        invariant 0 <= slot <= |c.tracked|
        invariant HeadProgress(c, start, Abs(), offset, slot, fall)
        invariant HeadOpen(c, Abs(), Rec(), offset) && HeadMatch(c, Abs(), offset, start.values) && HeadTraced(offset)
      {
        MakeLoopPhi(offset, slot, fall, start);
        slot := slot + 1;
      }
      HeadMerged(c, Abs(), Rec(), offset, start.values);
      HeadDoneTraced(c, start, Abs(), Rec(), offset, slot, fall);
    }

    /** Make sure that values are pending at a loop head. */
    method OpenHead(offset: nat, fall: bool)
      requires LifetimesOk() && offset in c.loops && offset <= c.loops[offset]
      requires Inv(c, Abs(), offset - 1, offset) && Dated(c, Abs(), offset, offset - 1)
      requires BodyPending(c, Abs(), offset)
      requires offset in pending ==> forall t :: t in pending ==> !(offset < t <= c.loops[offset])
      requires (fall ==> ins != map[]) && Listed(offset, offset) && (offset in branchTargets ==> JumpedTo(c, offset))
      requires Falling(c, Abs(), offset, fall)
      modifies this`phis, this`pending, this`branchSize, this`values, this`created
      ensures HeadProgress(c, old(Abs()), Abs(), offset, 0, fall)
      ensures HeadOpen(c, Abs(), Rec(), offset) && HeadMatch(c, Abs(), offset, old(values))
      ensures HeadTraced(offset)
    {
      ghost var start := Abs();
      if offset in pending {
        MergeHeadPending(offset, fall);
      } else {
        pending := pending[offset := []];
        FreshHead(c, start, Abs(), offset, fall);
        HeadFresh(c, start, Rec(), offset, Abs());
        FreshTraced(c, start, Rec(), offset, Abs());
      }
    }

    // ---------------------------------------------------------------- jumps

    /** Merge the current value of its slot into entry i pending at a branch target. */
    method MergeNext(target: nat, i: nat, ghost start: State, ghost from: nat, ghost cur: nat, ghost lim: nat)
      requires Shape(c, start) && target in start.pending && i < |start.pending[target]| && start.ins != map[]
      requires BranchMerged(c, start, Abs(), target, i)
      requires ListsOk(c, Abs(), Rec(), cur, lim) && (target < cur ==> Settled(c, start, target))
      requires Traced(c, RecordOut(Abs(), from), Rec()) && Edge(c.code, from, target)
      modifies this`phis, this`pending, this`created
      ensures BranchMerged(c, start, Abs(), target, i + 1) && ListsOk(c, Abs(), Rec(), cur, lim)
      ensures Traced(c, RecordOut(Abs(), from), Rec())
    {
      hide ListsOk, Settled, Traced, OptionsFrom, AddsAt, RecordOut, Grows, Renewed;
      ghost var st, rec := Abs(), Rec();
      BranchShape(c, start, st, target, i);
      SettledStays(c, start, st, target, i, cur);
      var e := pending[target][i];
      var r := MergeValue(target, values[e.slot], e);
      pending := pending[target := pending[target][i := r]];
      ghost var st1 := Abs();
      BranchMergedStep(c, start, st, st1, target, i, r);
      created := Renew(rec, target, e, r).created;
      TargetMerged(c, st, rec, target, i, r, st1, Rec(), cur, lim);
      TargetTraced(c, st, rec, from, target, i, r, st1, Rec(), cur, lim);
    }

    /** Merge the current values into the entries pending at a branch target. */
    method MergeAtTarget(target: nat, ghost from: nat, ghost cur: nat, ghost lim: nat) returns (ghost n: nat)
      requires Shape(c, Abs()) && target in pending && ins != map[]
      requires ListsOk(c, Abs(), Rec(), cur, lim) && (target < cur ==> Settled(c, Abs(), target))
      requires Traced(c, RecordOut(Abs(), from), Rec()) && Edge(c.code, from, target)
      modifies this`phis, this`pending, this`created
      ensures n == |old(pending)[target]|
      ensures BranchMerged(c, old(Abs()), Abs(), target, n) && ListsOk(c, Abs(), Rec(), cur, lim)
      ensures Traced(c, RecordOut(Abs(), from), Rec())
    {
      ghost var start := Abs();
      assert pending == pending[target := pending[target]];
      var i := 0;
      while i < |pending[target]|
        invariant 0 <= i <= |start.pending[target]|
        invariant BranchMerged(c, start, Abs(), target, i) && ListsOk(c, Abs(), Rec(), cur, lim)
        invariant Traced(c, RecordOut(Abs(), from), Rec())
      {
        MergeNext(target, i, start, from, cur, lim);
        i := i + 1;
      }
      n := i;
    }

    /** The values at a forward jump are merged into those pending at its target. */
    method MergeBranch(offset: nat, target: nat)
      requires Inv(c, Abs(), offset, offset) && Dated(c, Abs(), offset, offset) && offset < target && Sourced(Abs(), offset + 1)
      requires offset in outs && outs[offset] == values && ins != map[] && Listed(offset + 1, offset)
      requires JumpEdge(c.code, offset, target)
      modifies this`phis, this`pending, this`branchTargets, this`created
      ensures Grows(old(phis), phis) && Landed(old(Abs()), Abs(), target)
      ensures ListsOk(c, Abs(), Rec(), offset + 1, offset) && Traced(c, Branched(Abs(), offset, target), Rec())
      ensures Inv(c, Branched(Abs(), offset, target), offset, offset) && Dated(c, Branched(Abs(), offset, target), offset, offset)
      ensures forall t :: t in pending && t < target ==> t in old(pending) && pending[t] == old(pending)[t]
    {
      hide ListsOk, Bookkeeping, Threshold, ActiveLoops, Traced;
      ghost var st, rec := Abs(), Rec();
      if target in pending {
        assert RecordOut(st, offset) == st by { assert outs[offset := values] == outs; }
        ghost var n := MergeAtTarget(target, offset, offset + 1, offset);
        assert RecordOut(Abs(), offset) == Abs() by { assert outs[offset := values] == outs; }
        JumpAgain(c, st, Abs(), offset, target, n);
        JumpDated(c, st, Abs(), offset, target, n);
        JumpRecorded(c, Abs(), Rec(), offset, target);
      } else {
        pending := pending[target := []];
        branchTargets := branchTargets + [target];
        JumpFirst(c, st, Branched(Abs(), offset, target), offset, target);
        ListsOpened(c, st, rec, target, Abs(), offset + 1, offset);
        FirstJumpRecorded(c, st, rec, offset, target, Branched(Abs(), offset, target));
      }
    }

    /** A forward jump: account for the current values at its target. */
    method CheckBranchTarget(offset: nat, target: nat, ghost k: nat)
      requires Executed(c, Abs(), offset, k) && k < |JumpTargets(c.code[offset])|
      requires JumpTargets(c.code[offset])[k] == target > offset && offset !in c.loops
      requires Listed(offset + 1, offset)
      modifies this`phis, this`pending, this`branchTargets, this`branches, this`created
      ensures Executed(c, Abs(), offset, k + 1) && Listed(offset + 1, offset)
    {
      hide Executed, Inv, ListsOk, History, Dated, Sourced, Traced;
      ghost var st := Abs();
      ExecutedFacts(c, st, offset, k);
      ExecutedJump(c, st, offset, k);
      MergeBranch(offset, target);
      ghost var st1 := Abs();
      branches := branches + {(offset, target)};
      ListsSame(c, st1, Rec(), Abs(), offset + 1, offset);
      JumpSourced(st, Abs(), offset, target);
      RecordedJump(c, st, Abs(), offset, k);
    }

    /** A back edge: merge the current values into the loop phis and freeze them. */
    method CheckBackEdge(offset: nat, h: nat)
      requires Entered(c, Abs(), offset) && offset < |c.code| && c.reached[offset] && offset !in c.loops
      requires JumpTargets(c.code[offset]) == [h] && h in c.loops && h < offset == c.loops[h]
      requires Listed(offset + 1, offset)
      modifies this`phis, this`pending, this`newValues, this`branches, this`outs, this`created
      ensures Top(c, Abs(), offset + 1)
      ensures Listed(offset + 1, offset) && ValuesBefore(c, Abs(), offset + 1) && h !in pending
    {
      hide Entered, Top, BranchMerged, Settled, ListsOk, ValuesBefore, Traced;
      ghost var st := Abs();
      BackEdgeReady(c, st, Rec(), offset, h);
      ghost var n := MergeAtTarget(h, offset, offset + 1, offset);
      ghost var st1, rec1 := Abs(), Rec();
      MergedFrame(c, st, st1, h, n);
      FreezeNewValues(h);
      branches := branches + {(offset, h)};
      outs := outs[offset := values];
      CloseLoop(c, st, st1, offset, h, n, Abs());
      CloseLists(c, st1, rec1, offset, h, offset + 1, Abs(), Rec());
      CloseTraced(c, st1, rec1, offset, h, Abs(), Rec());
    }

    // ---------------------------------------------------------------- the sweep

    method EnterHeadAt(offset: nat, fall: bool)
      requires LifetimesOk() && Top(c, Abs(), offset) && offset < |c.code| && c.reached[offset] && offset in c.loops
      requires fall == FallsInto(c.code, c.reached, offset)
      requires Listed(offset, offset) && ValuesBefore(c, Abs(), offset)
      modifies this`phis, this`pending, this`branchSize, this`values, this`ins, this`created
      ensures Entered(c, Abs(), offset) && ins == old(ins)[offset := values] && Listed(offset + 1, offset)
    {
      hide Top, Inv, Dated, HeadProgress, ListsOk, Merging, ValuesBefore, Entered, BodyPending, Traced, Unlisted;
      ghost var start := Abs();
      TopFacts(c, start, offset, fall);
      HeadReady(c, start, offset);
      TopFalling(c, start, offset, fall);
      EnterLoop(offset, fall);
      ghost var st, rec := Abs(), Rec();
      ins := ins[offset := values];
      EnterHead(c, start, st, offset, fall, |c.tracked|, Abs());
      MergingEntered(c, start, st, rec, offset, Abs());
      MergingTraced(c, start, st, rec, offset, Abs());
    }

    method EnterPlainAt(offset: nat, fall: bool)
      requires Top(c, Abs(), offset) && offset < |c.code| && c.reached[offset] && offset !in c.loops
      requires fall == FallsInto(c.code, c.reached, offset)
      requires Listed(offset, offset) && ValuesBefore(c, Abs(), offset)
      modifies this`phis, this`pending, this`branchSize, this`values, this`newValues, this`ins, this`created
      ensures Entered(c, Abs(), offset) && ins == old(ins)[offset := values] && Listed(offset + 1, offset)
    {
      hide Inv, History, ListsOk, Merging, ValuesBefore, Received, Traced, Unlisted;
      ghost var start := Abs();
      MergePlain(offset, fall);
      ghost var st, rec := Abs(), Rec();
      ins := ins[offset := values];
      EnterPlain(c, start, st, offset, fall, Abs());
      MergingEntered(c, start, st, rec, offset, Abs());
      MergingTraced(c, start, st, rec, offset, Abs());
    }

    /** Merge the values that come in at an operation that is no loop head. */
    method MergePlain(offset: nat, fall: bool)
      requires Top(c, Abs(), offset) && offset < |c.code| && c.reached[offset] && offset !in c.loops
      requires fall == FallsInto(c.code, c.reached, offset) && Listed(offset, offset)
      modifies this`phis, this`pending, this`branchSize, this`values, this`newValues, this`created
      ensures Inv(c, Abs(), offset, offset) && Dated(c, Abs(), offset, offset) && Grows(old(phis), phis)
      ensures pending.Keys == old(pending.Keys) - {offset} && Received(c, Abs(), offset, old(values), fall)
      ensures offset == 0 ==> values == old(values)
      ensures Merging(c, old(values), Abs(), Rec(), offset) && Traces(offset)
    {
      hide Top, Inv, Dated, ListsOk, Merging, Received, Traced, Unlisted;
      ghost var start := Abs();
      TopFacts(c, start, offset, fall);
      TopFalling(c, start, offset, fall);
      if offset in pending {
        Join(offset, fall);
      } else {
        NoJoin(c, start, offset, fall);
        NoJoinDone(c, start, Rec(), offset);
        NoJoinTraced(c, start, Rec(), offset);
      }
    }

    /** Merge the values that come in at the offset. */
    method Enter(offset: nat)
      requires LifetimesOk() && Top(c, Abs(), offset) && offset < |c.code| && c.reached[offset]
      requires JumpKinds(c, offset)
      requires Listed(offset, offset) && ValuesBefore(c, Abs(), offset)
      modifies this`phis, this`pending, this`branchSize, this`values, this`newValues, this`ins, this`created
      ensures Entered(c, Abs(), offset) && ins == old(ins)[offset := values] && Listed(offset + 1, offset)
    {
      var fall := FallsInto(c.code, c.reached, offset);
      if offset in c.loops {
        EnterHeadAt(offset, fall);
      } else {
        EnterPlainAt(offset, fall);
      }
    }

    /** A write to a tracked variable makes its value the write at this operation. */
    method UpdateSlot(offset: nat)
      requires Entered(c, Abs(), offset) && offset < |c.code| && c.reached[offset]
      requires offset in c.loops ==> c.code[offset].LoopHead?
      requires Listed(offset + 1, offset)
      modifies this`pending, this`branchSize, this`values
      ensures Accessed(c, Abs(), offset) && Listed(offset + 1, offset)
    {
      hide ListsOk, History, Bookkeeping, ActiveLoops, Traced;
      ghost var st, rec := Abs(), Rec();
      var op := c.code[offset];
      if (op.SetSlot? || op.IncSlot?) && c.Track(op.slot) {
        SetValue(op.slot, Written(op.slot, offset), offset);
        ExecuteWrite(c, st, offset, op.slot, Abs());
        AssignLists(c, st, rec, op.slot, Written(op.slot, offset), offset, offset + 1, Abs());
        WriteTraced(c, st, rec, offset, op.slot, Abs());
      } else {
        ExecuteRead(c, st, offset);
      }
    }

    ghost method Leave(offset: nat)
      requires Accessed(c, Abs(), offset) && c.reached[offset]
      requires forall t: nat :: JumpEdge(c.code, offset, t) ==> t > offset
      requires Listed(offset + 1, offset)
      modifies this`outs
      ensures Executed(c, Abs(), offset, 0)
      ensures Listed(offset + 1, offset) && ValuesBefore(c, Abs(), offset + 1)
    {
      hide ListsOk, ValuesBefore, Executed, Traced;
      ghost var st, rec := Abs(), Rec();
      outs := outs[offset := values];
      ExecuteForward(c, st, offset, Abs());
      ListsLeft(c, st, rec, offset, Abs(), offset + 1, offset);
      LeavingTraced(c, st, rec, offset, Abs());
    }

    /** Record the value of a variable that the operation accesses. */
    method RecordAccess(offset: nat)
      requires Entered(c, Abs(), offset) && offset < |c.code|
      modifies this`popped
      ensures popped == Recorded(c, old(popped), offset, ins[offset])
    {
      var op := c.code[offset];
      if Accesses(op) && c.Track(op.slot) {
        popped := popped[offset := values[op.slot]];
      }
    }

    method RecordJumps(offset: nat)
      requires Executed(c, Abs(), offset, 0)
      requires offset in c.loops ==> c.code[offset].LoopHead?
      requires forall t: nat :: JumpEdge(c.code, offset, t) ==> t > offset
      requires Listed(offset + 1, offset)
      modifies this`phis, this`pending, this`branchTargets, this`branches, this`created
      ensures Top(c, Abs(), offset + 1) && Listed(offset + 1, offset)
    {
      hide ListsOk, History, Inv, Dated, Sourced, Traced;
      var targets := JumpTargets(c.code[offset]);
      var k := 0;
      while k < |targets|
        invariant 0 <= k <= |targets| && Executed(c, Abs(), offset, k) && Listed(offset + 1, offset)
      {
        assert JumpEdge(c.code, offset, targets[k]);
        CheckBranchTarget(offset, targets[k], k);
        k := k + 1;
      }
      Advance(c, Abs(), offset, k);
    }

    /** The part of a step after the incoming values are merged. */
    method Execute(offset: nat)
      requires Entered(c, Abs(), offset) && offset < |c.code| && c.reached[offset]
      requires JumpKinds(c, offset) && Listed(offset + 1, offset)
      modifies this`phis, this`pending, this`branchSize, this`values, this`newValues, this`popped,
               this`branchTargets, this`branches, this`outs, this`created
      ensures Top(c, Abs(), offset + 1)
      ensures popped == Recorded(c, old(popped), offset, ins[offset])
      ensures Listed(offset + 1, offset) && ValuesBefore(c, Abs(), offset + 1)
      ensures forall t: nat :: JumpEdge(c.code, offset, t) && t <= offset ==> t !in pending
    {
      hide ListsOk, History, Inv, Dated, Sourced, ValuesBefore, Traced;
      var targets := JumpTargets(c.code[offset]);
      if |targets| == 1 && targets[0] <= offset {
        CheckBackEdge(offset, targets[0]);
      } else {
        RecordAccess(offset);
        StepForward(offset);
      }
    }

    /** An operation that does not jump back. */
    method StepForward(offset: nat)
      requires Entered(c, Abs(), offset) && offset < |c.code| && c.reached[offset]
      requires offset in c.loops ==> c.code[offset].LoopHead?
      requires forall t: nat :: JumpEdge(c.code, offset, t) ==> t > offset
      requires Listed(offset + 1, offset)
      modifies this`phis, this`pending, this`branchSize, this`values,
               this`branchTargets, this`branches, this`outs, this`created
      ensures Top(c, Abs(), offset + 1)
      ensures Listed(offset + 1, offset) && ValuesBefore(c, Abs(), offset + 1)
    {
      UpdateSlot(offset);
      Leave(offset);
      RecordJumps(offset);
    }

    method StepReached(offset: nat)
      requires LifetimesOk() && Top(c, Abs(), offset) && offset < |c.code| && c.reached[offset]
      requires Listed(offset, offset) && ValuesBefore(c, Abs(), offset)
      modifies this
      ensures Top(c, Abs(), offset + 1)
      ensures offset in ins && ins == old(ins)[offset := ins[offset]]
      ensures popped == Recorded(c, old(popped), offset, ins[offset])
      ensures Listed(offset + 1, offset + 1) && ValuesBefore(c, Abs(), offset + 1)
    {
      hide Inv, ListsOk, History, Dated, ValuesBefore, Traced;
      JumpKindsOf(c, offset);
      Enter(offset);
      Execute(offset);
      ListsClosed(c, Abs(), Rec(), offset, offset + 1);
    }

    /** The operations before the offset have been analysed. */
    ghost predicate Done(offset: nat)
      reads this
    {
      LifetimesOk() && Top(c, Abs(), offset) && RecordedBelow(c, popped, ins, offset)
      && Listed(offset, offset) && ValuesBefore(c, Abs(), offset)
    }

    /** One operation of the sweep. */
    method Step(offset: nat)
      requires Done(offset) && offset < |c.code|
      modifies this
      ensures Done(offset + 1)
    {
      ghost var popped0, ins0 := popped, ins;
      if c.reached[offset] {
        StepReached(offset);
      } else {
        Unreached(c, Abs(), Rec(), offset);
      }
      RecordedStep(c, popped0, ins0, popped, ins, offset);
    }

    constructor (c: Context, lifetimes: seq<LifetimeVariable>)
      requires |c.reached| == |c.code|
      ensures this.c == c && this.lifetimes == lifetimes
      ensures LifetimesOk() ==> Done(0)
    {
      hide Top, ListsOk, ValuesBefore, Traced;
      this.c, this.lifetimes := c, lifetimes;
      values := seq(|c.tracked|, s requires 0 <= s < |c.tracked| => if c.tracked[s] then Initial(s) else Empty);
      branchSize := seq(|c.tracked|, s => 0);
      branchTargets, pending, phis, popped, newValues := [], map[], [], map[], map[];
      ins, outs, branches, created := map[], map[], {}, [];
      new;
      if LifetimesOk() {
        TopStart(c, Abs());
        ListsStart(c, Abs(), Rec());
        TracedStart(c, Abs(), Rec());
      }
    }

    /** The whole pass. */
    method Analyze()
      requires Done(0)
      modifies this
      ensures Done(|c.code|)
    {
      for offset := 0 to |c.code|
        invariant Done(offset)
      {
        Step(offset);
      }
    }
  }

  // ------------------------------------------------------------------ soundness

  /** The value of slot s when a run arrives at its last operation: the last write to it, or its initial value. */
  ghost function LastWriter(code: Script, p: seq<nat>, s: nat): SsaValue
    requires |p| > 0 && forall i :: 0 <= i < |p| ==> p[i] < |code|
  {
    if |p| == 1 then Initial(s)
    else if Writes(code[p[|p| - 2]], s) then Written(s, p[|p| - 2])
    else LastWriter(code, p[..|p| - 1], s)
  }

  /**
   Every run arrives at every operation with values in the expansion of what the
   pass recorded there, except for forgotten initial values.
   */
  lemma {:induction false} RunsFlow(c: Context, st: State, p: seq<nat>, s: nat)
    requires c.Valid() && Shape(c, st) && History(c, st, |c.code|, |c.code|)
    requires IsRun(c.code, p) && c.Track(s)
    ensures p[|p| - 1] in st.ins
    ensures !(c.Forgets(s) && LastWriter(c.code, p, s) == Initial(s)) ==>
      Flows(st.phis, LastWriter(c.code, p, s), st.ins[p[|p| - 1]][s])
    decreases |p|
  {
    hide Shape, History, ReachClosed, StructuredLoops;
    hide Shape, History, ReachClosed, StructuredLoops;
    if |p| == 1 {
      FirstValues(c, st, s);
      FlowsRefl(st.phis, Initial(s));
    } else {
      var q := p[..|p| - 1];
      var o, t := p[|p| - 2], p[|p| - 1];
      assert q[|q| - 1] == o && Edge(c.code, o, t);
      RunsFlow(c, st, q, s);
      EdgeValues(c, st, o, t, s);
      if !Writes(c.code[o], s) && !(c.Forgets(s) && LastWriter(c.code, q, s) == Initial(s)) {
        FlowsTrans(st.phis, LastWriter(c.code, q, s), st.ins[o][s], st.ins[t][s]);
      }
    }
  }

  /** The values at the start of the script. */
  lemma {:induction false} FirstValues(c: Context, st: State, s: nat)
    requires c.Valid() && Shape(c, st) && History(c, st, |c.code|, |c.code|) && c.Track(s)
    ensures 0 in st.ins && s < |st.ins[0]| && (!c.Forgets(s) ==> st.ins[0][s] == Initial(s))
  {
  }

  /** The values before and after an operation, and at the next one of a run. */
  lemma {:induction false} EdgeValues(c: Context, st: State, o: nat, t: nat, s: nat)
    requires c.Valid() && Shape(c, st) && History(c, st, |c.code|, |c.code|) && c.Track(s)
    requires o in st.ins && t < |c.code| && Edge(c.code, o, t)
    ensures o < |c.code| && t in st.ins && s < |st.ins[o]| && s < |st.ins[t]|
    ensures Flows(st.phis, if Writes(c.code[o], s) then Written(s, o) else st.ins[o][s], st.ins[t][s])
  {
    assert Effect(c, st, o);
    assert Flows(st.phis, st.outs[o][s], st.ins[t][s]);
  }

  lemma {:induction false} OptionTyped(c: Context, phis: seq<PhiNode>, w: SsaValue, u: SsaValue, s: nat)
    requires c.PhisOk(phis) && c.Typed(phis, w, s) && u in Options(phis, w)
    ensures c.Typed(phis, u, s)
  {
  }

  /** The expansion of a value of slot s holds only values of slot s. */
  lemma {:induction false} ExpansionTyped(c: Context, phis: seq<PhiNode>, v: SsaValue, w: SsaValue, s: nat)
    requires c.PhisOk(phis) && c.Typed(phis, w, s) && Flows(phis, v, w)
    ensures c.Typed(phis, v, s)
  {
    var n: nat :| FlowsIn(phis, v, w, n);
    var has := x => c.Typed(phis, x, s);
    forall x, u | has(x) && u in Options(phis, x)
      ensures has(u)
    {
      OptionTyped(c, phis, x, u, s);
    }
    ExpansionHas(phis, has, v, w, n);
  }

  /**
   Soundness of the pass: whenever a run is about to access a tracked variable,
   the last write to it, or its initial value if there is none, is in the
   expansion of the value recorded at that operation, exactly unless it is an
   initial value that the loop at the start of the script forgets; and apart
   from phi nodes that expansion holds only writes to the same variable and its
   initial value.
   */
  lemma {:induction false} SsaSound(c: Context, st: State, popped: map<nat, SsaValue>, p: seq<nat>)
    requires c.Valid() && Shape(c, st) && History(c, st, |c.code|, |c.code|)
    requires RecordedBelow(c, popped, st.ins, |c.code|)
    requires IsRun(c.code, p)
    requires Accesses(c.code[p[|p| - 1]]) && c.Track(c.code[p[|p| - 1]].slot)
    ensures var o := p[|p| - 1];
            var s := c.code[o].slot;
            && o in popped
            && (Flows(st.phis, LastWriter(c.code, p, s), popped[o]) <==> !(c.Forgets(s) && LastWriter(c.code, p, s) == Initial(s)))
            && forall v :: Flows(st.phis, v, popped[o]) ==> c.Typed(st.phis, v, s)
  {
    var o := p[|p| - 1];
    var s := c.code[o].slot;
    RunsFlow(c, st, p, s);
    forall v | Flows(st.phis, v, popped[o])
      ensures c.Typed(st.phis, v, s)
    {
      ExpansionTyped(c, st.phis, v, popped[o], s);
    }
  }

  /** A script that starts with a loop. */
  ghost function FirstLoop(): Context {
    Context([LoopHead, IncSlot(2), CondJump(0, 1, 0), Return(0)], [true, true, true, true], map[0 := 2], [false, false, true])
  }

  lemma {:induction false} FirstLoopValid()
    ensures FirstLoop().Valid()
  {
    var c := FirstLoop();
    assert forall o: nat, t: nat :: o < 4 && JumpEdge(c.code, o, t) ==> o == 2 && t == 0;
  }

  /**
   The value that the loop counts up first is the initial one, and whatever the
   pass records for that access, the initial value is not in its expansion.
   */
  lemma {:induction false} FirstLoopForgets(st: State, popped: map<nat, SsaValue>)
    requires Shape(FirstLoop(), st) && History(FirstLoop(), st, 4, 4) && RecordedBelow(FirstLoop(), popped, st.ins, 4)
    ensures var c := FirstLoop();
            && c.Valid() && c.Track(2) && c.code[1] == IncSlot(2)
            && IsRun(c.code, [0, 1]) && LastWriter(c.code, [0, 1], 2) == Initial(2)
            && 1 in popped && !Flows(st.phis, Initial(2), popped[1])
  {
    hide Shape, History, RecordedBelow;
    FirstLoopRun();
    SsaSound(FirstLoop(), st, popped, [0, 1]);
  }

  lemma {:induction false} FirstLoopRun()
    ensures var c := FirstLoop();
            && c.Valid() && c.Track(2) && c.Forgets(2) && c.code[1] == IncSlot(2)
            && IsRun(c.code, [0, 1]) && LastWriter(c.code, [0, 1], 2) == Initial(2)
  {
    FirstLoopValid();
    var c := FirstLoop();
    assert Writes(c.code[1], 2);
    assert WrittenBetween(c.code, c.reached, 2, 0, 2);
    assert [0, 1][..1] == [0];
  }
}
