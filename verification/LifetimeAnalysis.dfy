/**
 The backward lifetime pass over a script: one sweep from the last offset to the
 first, with the list of currently dead variables that have a later segment and
 the stack of loops whose body is being scanned.
 */
module LifetimeAnalysis {
  import opened Bytecode
  import opened Lifetimes
  import opened LifetimeSteps
  import opened LifetimeGaps

  predicate Dead(v: LifetimeVariable) {
    !v.alive && |v.segments| > 0
  }

  /** The list holds each dead variable with a later segment exactly once. */
  ghost predicate SavedOk(list: seq<nat>, vars: seq<LifetimeVariable>) {
    && (forall i, j :: 0 <= i < j < |list| ==> list[i] != list[j])
    && (forall s: nat :: s in list <==> s < |vars| && Dead(vars[s]))
  }

  /** So it is no longer than the number of slots, and shorter if some slot is not on it. */
  lemma {:induction false} SavedFits(list: seq<nat>, n: nat)
    requires (forall i, j :: 0 <= i < j < |list| ==> list[i] != list[j])
    requires forall i :: 0 <= i < |list| ==> list[i] < n
    ensures |list| <= n
    ensures forall s: nat :: s < n && s !in list ==> |list| < n
  {
    var elems := set i | 0 <= i < |list| :: list[i];
    Distinct(list);
    SubsetSize(elems, Below(n));
    forall s: nat | s < n && s !in list
      ensures |list| < n
    {
      SubsetSize(elems, Below(n) - {s});
    }
  }

  ghost function Below(n: nat): (r: set<nat>)
    ensures |r| == n && forall i: nat :: i in r <==> i < n
  {
    if n == 0 then {} else Below(n - 1) + {n - 1}
  }

  lemma {:induction false} Distinct(list: seq<nat>)
    requires forall i, j :: 0 <= i < j < |list| ==> list[i] != list[j]
    ensures |set i | 0 <= i < |list| :: list[i]| == |list|
    decreases |list|
  {
    if |list| > 0 {
      var n := |list| - 1;
      var rest := list[..n];
      Distinct(rest);
      assert (set i | 0 <= i < |list| :: list[i]) == (set i | 0 <= i < n :: rest[i]) + {list[n]};
    }
  }

  lemma {:induction false} SubsetSize(a: set<nat>, b: set<nat>)
    requires a <= b
    ensures |a| <= |b|
  {
    assert b == a + (b - a);
  }

  lemma {:induction false} WalkTail(segs: seq<Lifetime>, i: nat, end: nat, to: nat)
    requires i < |segs| && segs[i].start < end && to > segs[i].end
    requires var last := i + 1 == |segs| || segs[i + 1].start >= end;
             !(last && segs[i].end >= end) && to == if last then end else segs[i].savedEnd
    ensures var segs' := segs[..i] + [segs[i].(savedEnd := 0), Tail(segs[i], to, end)] + segs[i + 1..];
            segs'[..i + 2] + ExtendFrom(segs'[i + 2..], end) == segs[..i] + ExtendFrom(segs[i..], end)
  {
  }

  lemma {:induction false} WalkEnd(segs: seq<Lifetime>, i: nat, end: nat)
    requires i <= |segs|
    requires i < |segs| && segs[i].start < end ==> (i + 1 == |segs| || segs[i + 1].start >= end) && segs[i].end >= end
    ensures segs[..i] + ExtendFrom(segs[i..], end) == segs
  {
  }

  lemma {:induction false} WalkOn(segs: seq<Lifetime>, i: nat, end: nat)
    requires i < |segs| && segs[i].start < end
    requires var last := i + 1 == |segs| || segs[i + 1].start >= end;
             !last && segs[i].savedEnd <= segs[i].end
    ensures segs[..i + 1] + ExtendFrom(segs[i + 1..], end) == segs[..i] + ExtendFrom(segs[i..], end)
  {
  }

  /** The list without its entry i, whose place the last one takes. */
  ghost function Moved(list: seq<nat>, i: nat): (r: seq<nat>)
    requires i < |list|
    ensures |r| == |list| - 1
  {
    var n := |list| - 1;
    if i == n then list[..n] else list[..n][i := list[n]]
  }

  lemma {:induction false} MovedFacts(list: seq<nat>, i: nat)
    requires i < |list| && forall j, k :: 0 <= j < k < |list| ==> list[j] != list[k]
    ensures var r := Moved(list, i);
      && (forall j, k :: 0 <= j < k < |r| ==> r[j] != r[k])
      && (forall j :: 0 <= j < i ==> r[j] == list[j])
      && (forall x :: x in r[i..] <==> x in list[i..] && x != list[i])
      && (forall x :: x in r <==> x in list && x != list[i])
  {
  }

  class Analysis {
    const code: Script
    const reached: seq<bool>
    const escapes: seq<bool>

    var vars: seq<LifetimeVariable>
    const saved: array<nat>
    var savedCount: nat
    var loops: map<nat, nat>
    var active: seq<nat>

    ghost predicate ListOk()
      reads this, saved
    {
      |vars| == |escapes| == saved.Length && savedCount <= saved.Length && SavedOk(saved[..savedCount], vars)
    }

    /** Remove the entry at index i by moving the last one there. */
    method RemoveSaved(i: nat)
      requires i < savedCount <= saved.Length
      requires forall j, k :: 0 <= j < k < savedCount ==> saved[j] != saved[k]
      modifies this`savedCount, saved
      ensures savedCount == old(savedCount) - 1
      ensures forall j, k :: 0 <= j < k < savedCount ==> saved[j] != saved[k]
      ensures forall j :: 0 <= j < i ==> saved[j] == old(saved[j])
      ensures forall x :: x in saved[i..savedCount] <==> x in old(saved[i..savedCount]) && x != old(saved[i])
      ensures forall x :: x in saved[..savedCount] <==> x in old(saved[..savedCount]) && x != old(saved[i])
    {
      ghost var before := saved[..savedCount];
      savedCount := savedCount - 1;
      saved[i] := saved[savedCount];
      assert saved[..savedCount] == Moved(before, i);
      assert saved[i..savedCount] == Moved(before, i)[i..] && before[i..] == old(saved[i..savedCount]);
      MovedFacts(before, i);
    }

    method AddSaved(slot: nat)
      requires savedCount <= saved.Length
      requires forall j, k :: 0 <= j < k < savedCount ==> saved[j] != saved[k]
      requires forall j :: 0 <= j < savedCount ==> saved[j] < saved.Length
      requires slot < saved.Length && slot !in saved[..savedCount]
      modifies this`savedCount, saved
      ensures savedCount == old(savedCount) + 1 <= saved.Length
      ensures saved[..savedCount] == old(saved[..savedCount]) + [slot]
    {
      SavedFits(saved[..savedCount], saved.Length);
      saved[savedCount] := slot;
      savedCount := savedCount + 1;
    }

    /** The operation at the offset reads the variable. */
    method AddVar(slot: nat, offset: nat)
      requires ListOk() && slot < |vars| && (vars[slot].alive ==> |vars[slot].segments| > 0)
      modifies this`vars, this`savedCount, saved
      ensures ListOk() && vars == old(vars)[slot := AddVariable(old(vars)[slot], offset)]
    {
      var v := vars[slot];
      if v.alive {
        vars := vars[slot := v.(segments := v.segments[0 := v.segments[0].(start := offset)])];
        return;
      }
      if |v.segments| > 0 {
        var i := 0;
        while saved[i] != slot
          invariant 0 <= i < savedCount <= saved.Length && slot in saved[i..savedCount]
          decreases savedCount - i
        {
          i := i + 1;
        }
        RemoveSaved(i);
      }
      vars := vars[slot := Revive(v, offset)];
    }

    /** The operation at the offset writes the variable. */
    method KillVar(slot: nat, offset: nat)
      requires ListOk() && slot < |vars| && (vars[slot].alive ==> |vars[slot].segments| > 0)
      modifies this`vars, this`savedCount, saved
      ensures ListOk() && vars == old(vars)[slot := KillVariable(old(vars)[slot], offset)]
    {
      var v := vars[slot];
      if !Dead(v) {
        assert forall j :: 0 <= j < savedCount ==> saved[j] in saved[..savedCount];
        AddSaved(slot);
      }
      vars := vars[slot := KillVariable(v, offset)];
    }

    /** A switch: every dead variable with a later segment revives. */
    method ReviveSaved(offset: nat)
      requires ListOk()
      modifies this`vars, this`savedCount, saved
      ensures ListOk() && |vars| == |old(vars)|
      ensures forall s: nat :: s < |vars| ==> vars[s] == SwitchVariable(old(vars)[s], offset)
    {
      ghost var vars0 := vars;
      while savedCount > 0
        invariant ListOk() && |vars| == |vars0|
        invariant forall s: nat :: s < |vars| ==>
                    vars[s] == if s in saved[..savedCount] then vars0[s] else SwitchVariable(vars0[s], offset)
      {
        var slot := saved[0];
        assert slot in saved[..savedCount];
        vars := vars[slot := Revive(vars[slot], offset)];
        RemoveSaved(0);
      }
      assert saved[..savedCount] == [];
    }

    /** A forward jump: saved variables that are live at the target revive. */
    method JumpForward(offset: nat, target: nat, inLoop: bool)
      requires ListOk() && forall s: nat :: s < |vars| ==> Sorted(vars[s].segments)
      modifies this`vars, this`savedCount, saved
      ensures ListOk() && |vars| == |old(vars)|
      ensures forall s: nat :: s < |vars| ==> vars[s] == JumpVariable(old(vars)[s], offset, target, inLoop)
    {
      ghost var vars0 := vars;
      var i := 0;
      while i < savedCount
        invariant ListOk() && 0 <= i <= savedCount && Jumped(vars0, i, offset, target, inLoop)
        decreases savedCount - i
      {
        var slot := saved[i];
        assert slot in saved[i..savedCount] && slot in saved[..savedCount];
        var live := Live(vars[slot], target);
        if live {
          ReviveEntry(i, offset, target, inLoop, vars0);
        } else {
          KeepEntry(i, offset, target, inLoop, vars0);
          i := i + 1;
        }
      }
      assert saved[i..savedCount] == [];
    }

    /** The jump has been taken into account for all variables but those on the list from i on. */
    ghost predicate Jumped(vars0: seq<LifetimeVariable>, i: nat, offset: nat, target: nat, inLoop: bool)
      requires i <= savedCount <= saved.Length
      reads this, saved
    {
      |vars| == |vars0| && forall s: nat :: s < |vars| ==>
        vars[s] == if s in saved[i..savedCount] then vars0[s] else JumpVariable(vars0[s], offset, target, inLoop)
    }

    /** An entry of the list that is live at the target of a jump. */
    method ReviveEntry(i: nat, offset: nat, target: nat, inLoop: bool, ghost vars0: seq<LifetimeVariable>)
      requires ListOk() && i < savedCount && Jumped(vars0, i, offset, target, inLoop) && saved[i] < |vars|
      requires Covers(vars[saved[i]].segments, target) && Dead(vars[saved[i]]) && saved[i] in saved[i..savedCount]
      modifies this`vars, this`savedCount, saved
      ensures ListOk() && i <= savedCount == old(savedCount) - 1 && Jumped(vars0, i, offset, target, inLoop)
    {
      var slot := saved[i];
      vars := vars[slot := Revive(vars[slot], offset)];
      RemoveSaved(i);
    }

    /** An entry of the list that is not live at the target of a jump. */
    method KeepEntry(i: nat, offset: nat, target: nat, inLoop: bool, ghost vars0: seq<LifetimeVariable>)
      requires ListOk() && i < savedCount && Jumped(vars0, i, offset, target, inLoop) && saved[i] < |vars|
      requires !Covers(vars[saved[i]].segments, target) && Dead(vars[saved[i]]) && saved[i] in saved[i..savedCount]
      modifies this`vars
      ensures ListOk() && Jumped(vars0, i + 1, offset, target, inLoop)
    {
      var slot := saved[i];
      ghost var rest := saved[i + 1..savedCount];
      assert saved[i..savedCount] == [slot] + rest && slot !in rest;
      if inLoop && vars[slot].savedEnd == 0 {
        vars := vars[slot := vars[slot].(savedEnd := offset)];
      }
    }

    /** The walk of `extendVariable` over the segments of one variable. */
    static method ExtendSegments(v: LifetimeVariable, head: nat, backedge: nat) returns (r: LifetimeVariable)
      requires v.alive && |v.segments| > 0
      ensures r == ExtendVariable(v, head, backedge)
    {
      var segs := v.segments[0 := v.segments[0].(start := head)];
      ghost var goal := ExtendFrom(segs, backedge);
      var i := 0;
      assert segs[..0] + ExtendFrom(segs[0..], backedge) == goal by { assert segs[0..] == segs; }
      while i < |segs| && segs[i].start < backedge
        invariant 0 <= i <= |segs|
        invariant segs[..i] + ExtendFrom(segs[i..], backedge) == goal
        decreases |segs| - i
      {
        var seg := segs[i];
        var savedEnd := seg.savedEnd;
        if i + 1 == |segs| || segs[i + 1].start >= backedge {
          if seg.end >= backedge {
            break;
          }
          savedEnd := backedge;
        }
        if savedEnd > seg.end {
          var tail := Tail(seg, savedEnd, backedge);
          WalkTail(segs, i, backedge, savedEnd);
          segs := segs[..i] + [seg.(savedEnd := 0), tail] + segs[i + 1..];
          i := i + 2;
        } else {
          WalkOn(segs, i, backedge);
          i := i + 1;
        }
      }
      WalkEnd(segs, i, backedge);
      r := v.(segments := segs);
    }

    /** A loop head: extend the variables that are live there over the whole loop. */
    method ExtendAll(head: nat, backedge: nat)
      requires ListOk() && forall s: nat :: s < |vars| && vars[s].alive ==> |vars[s].segments| > 0
      modifies this`vars
      ensures ListOk() && |vars| == |old(vars)|
      ensures forall s: nat :: s < |vars| && old(vars)[s].alive ==> vars[s] == ExtendVariable(old(vars)[s], head, backedge)
      ensures forall s: nat :: s < |vars| && !old(vars)[s].alive ==> vars[s] == old(vars)[s]
    {
      var i := 0;
      while i < |vars|
        invariant ListOk() && |vars| == |old(vars)| && 0 <= i <= |vars|
        invariant forall s: nat :: s < i && old(vars)[s].alive ==> vars[s] == ExtendVariable(old(vars)[s], head, backedge)
        invariant forall s: nat :: s < |vars| && (i <= s || !old(vars)[s].alive) ==> vars[s] == old(vars)[s]
      {
        if vars[i].alive {
          var v := ExtendSegments(vars[i], head, backedge);
          vars := vars[i := v];
        }
        i := i + 1;
      }
    }

    // ---------------------------------------------------------------- the sweep

    /** The loops seen so far, and the stack of those whose head is still to come. */
    ghost predicate LoopsOk(table: map<nat, nat>, cur: nat)
      reads this
    {
      && loops == (map h | h in table && table[h] >= cur :: table[h])
      && (forall i, j :: 0 <= i < j < |active| ==> active[i] < active[j])
      && (forall h: nat :: h in active <==> h in table && h < cur <= table[h])
    }

    ghost predicate SlotsOk(table: map<nat, nat>, cur: nat)
      requires |vars| == |escapes|
      reads this
    {
      forall s: nat :: s < |vars| ==>
        if escapes[s] then vars[s] == LifetimeVariable(false, [], 0) else SlotOk(code, reached, table, s, vars[s], cur)
    }

    ghost predicate PassOk(table: map<nat, nat>, cur: nat)
      reads this, saved
    {
      && ReachClosed(code, reached) && StructuredLoops(code, reached, table)
      && ListOk() && LoopsOk(table, cur) && SlotsOk(table, cur)
    }

    /** The effect of an operation that accesses a variable or switches. */
    method Access(offset: nat)
      requires ListOk() && offset < |code|
      requires forall s: nat :: s < |vars| && vars[s].alive ==> |vars[s].segments| > 0
      requires forall s: nat :: s < |vars| && escapes[s] ==> vars[s] == LifetimeVariable(false, [], 0)
      modifies this`vars, this`savedCount, saved
      ensures ListOk() && |vars| == |old(vars)|
      ensures forall s: nat :: s < |vars| ==>
                vars[s] == if escapes[s] then old(vars)[s] else OpVariable(old(vars)[s], code[offset], s, offset)
    {
      var op := code[offset];
      match op
      case GetSlot(slot) =>
        if slot < |vars| && !escapes[slot] {
          AddVar(slot, offset);
        }
      case SetSlot(slot) =>
        if slot < |vars| && !escapes[slot] {
          KillVar(slot, offset);
        }
      case IncSlot(slot) =>
        if slot < |vars| && !escapes[slot] {
          KillVar(slot, offset);
          AddVar(slot, offset);
        }
      case Switch(_, _) =>
        ReviveSaved(offset);
      case _ =>
    }

    /** At a loop head: extend its live variables and leave the loop. */
    method LeaveLoop(offset: nat, ghost table: map<nat, nat>)
      requires PassOk(table, offset + 1) && offset < |code| && reached[offset] && offset in loops
      modifies this`vars, this`active
      ensures ListOk() && |vars| == |old(vars)|
      ensures forall s: nat :: s < |vars| ==> vars[s] == ExtendVariable(old(vars)[s], offset, table[offset])
      ensures forall h: nat :: h in active <==> h in table && h < offset < table[h]
      ensures forall i, j :: 0 <= i < j < |active| ==> active[i] < active[j]
    {
      ExtendAll(offset, loops[offset]);
      PopLoop(offset, table);
    }

    /** The innermost active loop is the one whose head is reached. */
    method PopLoop(offset: nat, ghost table: map<nat, nat>)
      requires offset in active
      requires forall i, j :: 0 <= i < j < |active| ==> active[i] < active[j]
      requires forall h: nat :: h in active <==> h in table && h < offset + 1 <= table[h]
      modifies this`active
      ensures forall h: nat :: h in active <==> h in table && h < offset < table[h]
      ensures forall i, j :: 0 <= i < j < |active| ==> active[i] < active[j]
    {
      ghost var n := |active| - 1;
      ghost var k :| 0 <= k < |active| && active[k] == offset;
      assert active[n] in active;
      assert k == n;
      ghost var before := active;
      active := active[..|active| - 1];
      assert before == active + [offset];
    }

    /** At a back edge: enter its loop. */
    method EnterLoop(offset: nat, head: nat, ghost table: map<nat, nat>)
      requires |reached| == |code| && StructuredLoops(code, reached, table)
      requires head in table && table[head] == offset
      requires loops == (map h | h in table && table[h] >= offset + 1 :: table[h])
      requires forall h: nat :: h in active <==> h in table && h < offset < table[h]
      requires forall i, j :: 0 <= i < j < |active| ==> active[i] < active[j]
      requires forall g :: g in table && table[g] == offset ==> g == head
      modifies this`loops, this`active
      ensures LoopsOk(table, offset)
    {
      loops := loops[head := offset];
      forall h | h in active
        ensures h < head
      {
        StackOrder(code, reached, table, h, head);
      }
      assert forall i :: 0 <= i < |active| ==> active[i] in active;
      active := active + [head];
    }

    /** No loop ends here: the loops seen and the stack stay as they are. */
    ghost method SameLoops(offset: nat, table: map<nat, nat>)
      requires loops == (map h | h in table && table[h] >= offset + 1 :: table[h])
      requires forall h: nat :: h in active <==> h in table && h < offset < table[h]
      requires forall i, j :: 0 <= i < j < |active| ==> active[i] < active[j]
      requires forall h :: h in table ==> table[h] != offset
      ensures LoopsOk(table, offset)
      ensures |active| > 0 <==> InLoop(table, offset)
    {
      assert |active| > 0 ==> active[0] in active;
    }

    /** The part of an operation after a possible loop head. */
    method Execute(offset: nat, ghost table: map<nat, nat>)
      requires |reached| == |code| && StructuredLoops(code, reached, table)
      requires ListOk() && offset < |code| && reached[offset] && offset !in table
      requires forall s: nat :: s < |vars| ==> VariableOk(vars[s], offset + 1)
      requires forall s: nat :: s < |vars| && vars[s].alive ==> |vars[s].segments| > 0
      requires forall s: nat :: s < |vars| && escapes[s] ==> vars[s] == LifetimeVariable(false, [], 0)
      requires loops == (map h | h in table && table[h] >= offset + 1 :: table[h])
      requires forall h: nat :: h in active <==> h in table && h < offset < table[h]
      requires forall i, j :: 0 <= i < j < |active| ==> active[i] < active[j]
      modifies this`vars, this`savedCount, this`loops, this`active, saved
      ensures ListOk() && LoopsOk(table, offset) && |vars| == |old(vars)|
      ensures forall s: nat :: s < |vars| ==>
                vars[s] == if escapes[s] then old(vars)[s] else StepVariable(code, table, s, old(vars)[s], offset)
    {
      hide SavedOk, StructuredLoops, DistinctWrites;
      var op := code[offset];
      Access(offset);
      if IsJump(op) && op.target < offset {
        BackEdgeOf(code, reached, table, offset);
        EnterLoop(offset, op.target, table);
      } else {
        NoBackEdge(code, reached, table, offset);
        SameLoops(offset, table);
        if IsJump(op) {
          assert forall s: nat :: s < |vars| ==> vars[s] == old(vars)[s] && Sorted(vars[s].segments);
          JumpForward(offset, op.target, |active| > 0);
        }
      }
    }

    /** A loop head. */
    method StepHead(offset: nat, ghost table: map<nat, nat>)
      requires PassOk(table, offset + 1) && offset < |code| && reached[offset] && offset in loops
      modifies this`vars, this`active
      ensures ListOk() && LoopsOk(table, offset) && |vars| == |old(vars)|
      ensures forall s: nat :: s < |vars| ==>
                vars[s] == if escapes[s] then old(vars)[s] else StepVariable(code, table, s, old(vars)[s], offset)
    {
      LeaveLoop(offset, table);
      NoBackEdge(code, reached, table, offset);
      SameLoops(offset, table);
    }

    /** One reached operation. */
    method Step(offset: nat, ghost table: map<nat, nat>)
      requires PassOk(table, offset + 1) && offset < |code| && reached[offset]
      modifies this`vars, this`savedCount, this`loops, this`active, saved
      ensures ListOk() && LoopsOk(table, offset) && |vars| == |old(vars)|
      ensures forall s: nat :: s < |vars| ==>
                vars[s] == if escapes[s] then old(vars)[s] else StepVariable(code, table, s, old(vars)[s], offset)
    {
      if code[offset].LoopHead? && offset in loops {
        StepHead(offset, table);
      } else {
        assert offset !in table;
        Execute(offset, table);
      }
    }

    /** One offset of the sweep. */
    method Visit(offset: nat, ghost cur: nat, ghost table: map<nat, nat>)
      requires PassOk(table, cur) && cur == offset + 1 && offset < |code|
      modifies this`vars, this`savedCount, this`loops, this`active, saved
      ensures PassOk(table, offset)
    {
      ghost var vars0 := vars;
      if reached[offset] {
        Step(offset, table);
        forall s: nat | s < |vars| && !escapes[s]
          ensures SlotOk(code, reached, table, s, vars[s], offset)
        {
          SlotStep(code, reached, table, s, vars0[s], cur, offset);
        }
      } else {
        UnreachedLoops(code, reached, table, offset);
        SameLoops(offset, table);
        forall s: nat | s < |vars| && !escapes[s]
          ensures SlotOk(code, reached, table, s, vars[s], offset)
        {
          SlotStep(code, reached, table, s, vars0[s], cur, offset);
        }
      }
    }

    constructor (code: Script, reached: seq<bool>, escapes: seq<bool>)
      ensures this.code == code && this.reached == reached && this.escapes == escapes
      ensures fresh(saved) && saved.Length == |escapes|
      ensures vars == seq(|escapes|, _ => LifetimeVariable(false, [], 0)) && savedCount == 0
      ensures loops == map[] && active == []
    {
      this.code, this.reached, this.escapes := code, reached, escapes;
      vars := seq(|escapes|, _ => LifetimeVariable(false, [], 0));
      saved := new nat[|escapes|];
      savedCount, loops, active := 0, map[], [];
    }

    /**
     The whole pass.  Each variable ends as the pass over it alone leaves it, and
     its write segments start exactly at the reached writes to it.
     */
    method Analyze(ghost table: map<nat, nat>) returns (ghost end: nat)
      requires ReachClosed(code, reached) && StructuredLoops(code, reached, table)
      requires vars == seq(|escapes|, _ => LifetimeVariable(false, [], 0)) && saved.Length == |escapes|
      requires savedCount == 0 && loops == map[] && active == []
      modifies this`vars, this`savedCount, this`loops, this`active, saved
      ensures end == 0 && PassOk(table, end) && loops == table
    {
      SlotsStart(table);
      end := Sweep(table, |code|);
    }

    method Sweep(ghost table: map<nat, nat>, start: nat) returns (ghost end: nat)
      requires start == |code| && PassOk(table, start)
      modifies this`vars, this`savedCount, this`loops, this`active, saved
      ensures end == 0 && PassOk(table, end) && loops == table
    {
      hide Analysis.SlotsOk, Analysis.ListOk, StructuredLoops, ReachClosed;
      var offset := start;
      while offset > 0
        invariant 0 <= offset <= |code| && PassOk(table, offset)
      {
        Visit(offset - 1, offset, table);
        offset := offset - 1;
      }
      end := offset;
    }

    lemma {:induction false} SlotsStart(table: map<nat, nat>)
      requires ReachClosed(code, reached) && StructuredLoops(code, reached, table)
      requires vars == seq(|escapes|, _ => LifetimeVariable(false, [], 0)) && saved.Length == |escapes|
      requires savedCount == 0 && loops == map[] && active == []
      ensures PassOk(table, |code|)
    {
      forall s: nat | s < |vars|
        ensures SlotOk(code, reached, table, s, vars[s], |code|)
      {
        SlotStart(code, reached, table, s);
      }
      assert saved[..savedCount] == [];
    }
  }

  lemma {:induction false} NoBackEdge(code: Script, reached: seq<bool>, table: map<nat, nat>, o: nat)
    requires |reached| == |code| && StructuredLoops(code, reached, table) && o < |code|
    requires !(IsJump(code[o]) && code[o].target < o)
    ensures forall h :: h in table ==> table[h] != o
  {
  }

  lemma {:induction false} BackEdgeOf(code: Script, reached: seq<bool>, table: map<nat, nat>, o: nat)
    requires |reached| == |code| && StructuredLoops(code, reached, table) && o < |code| && reached[o]
    requires IsJump(code[o]) && code[o].target < o
    ensures code[o].target in table && table[code[o].target] == o
    ensures forall g :: g in table && table[g] == o ==> g == code[o].target
  {
    assert BackEdge(code, o, code[o].target);
    forall g | g in table && table[g] == o
      ensures g == code[o].target
    {
      assert JumpEdge(code, o, g);
    }
  }

  lemma {:induction false} UnreachedLoops(code: Script, reached: seq<bool>, table: map<nat, nat>, o: nat)
    requires ReachClosed(code, reached) && LoopTable(code, reached, table) && o < |code| && !reached[o]
    ensures o !in table && forall h :: h in table ==> table[h] != o
  {
    if o in table {
      assert Edge(code, table[o], o);
    }
  }
}
