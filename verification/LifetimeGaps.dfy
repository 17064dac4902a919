/**
 The lifetime pass over one variable as a function of the script, and what its
 segments look like: they are in order, their writes are those of the script,
 and every gap ends at a write and remembers the jumps in it.
 */
module LifetimeGaps {
  import opened Bytecode
  import opened Lifetimes
  import opened LifetimeSteps

  /** One variable of a script, with the offsets that are reached and the loops. */
  datatype Scan = Scan(code: Script, reached: seq<bool>, loops: map<nat, nat>, s: nat) {

    ghost predicate Ok() {
      ReachClosed(code, reached) && StructuredLoops(code, reached, loops)
    }

    /** The variable after the backward pass down to an offset. */
    ghost function At(cur: nat): (v: LifetimeVariable)
      requires |reached| == |code| && cur <= |code|
      ensures v.alive ==> |v.segments| > 0
      decreases |code| - cur
    {
      if cur == |code| then LifetimeVariable(false, [], 0)
      else if reached[cur] then StepVariable(code, loops, s, At(cur + 1), cur)
      else At(cur + 1)
    }

    /** Operation x may leave its straight line in the forward direction. */
    predicate Leaves(x: nat) {
      && x < |code| && x < |reached| && reached[x]
      && (code[x].Switch? || (IsJump(code[x]) && code[x].target > x))
    }

    /** Operation x writes the variable without reading it. */
    predicate Kills(x: nat) {
      x < |code| && x < |reached| && reached[x] && code[x] == SetSlot(s)
    }

    /** Zero, or the back edge of a loop around the offset. */
    ghost predicate Bound(cur: nat, b: nat) {
      b == 0 || exists h :: h in loops && loops[h] == b && h < cur <= b
    }
  }

  lemma {:induction false} AtStep(c: Scan, o: nat, cur: nat)
    requires |c.reached| == |c.code| && o < |c.code| && cur == o + 1
    ensures c.At(o) == if c.reached[o] then StepVariable(c.code, c.loops, c.s, c.At(cur), o) else c.At(cur)
  {
  }

  /** At a loop head the variable is extended over the loop. */
  lemma {:induction false} HeadStep(c: Scan, h: nat, cur: nat)
    requires c.Ok() && h in c.loops && cur == h + 1
    ensures h < c.loops[h] < |c.code| && c.At(h) == ExtendVariable(c.At(cur), h, c.loops[h])
  {
    assert c.reached[h] by { assert Edge(c.code, c.loops[h], h); }
    AtStep(c, h, cur);
  }

  /** The write segments start exactly at the reached writes from cur on. */
  ghost predicate WritesIndexedFrom(code: Script, reached: seq<bool>, s: nat, segs: seq<Lifetime>, cur: nat) {
    forall o: nat :: WriteAt(segs, o) <==> cur <= o < |code| && o < |reached| && reached[o] && Writes(code[o], s)
  }

  lemma {:induction false} StepIndexed(c: Scan, segs: seq<Lifetime>, segs': seq<Lifetime>, cur: nat, o: nat)
    requires |c.reached| == |c.code| && o < |c.code| && cur == o + 1 && c.reached[o]
    requires WritesIndexedFrom(c.code, c.reached, c.s, segs, cur)
    requires forall w :: WriteAt(segs', w) <==> WriteAt(segs, w) || (w == o && Writes(c.code[o], c.s))
    ensures WritesIndexedFrom(c.code, c.reached, c.s, segs', o)
  {
  }

  /** The segments are in order and their writes those of the script. */
  lemma {:induction false} PassShape(c: Scan, cur: nat)
    requires c.Ok() && cur <= |c.code|
    ensures VariableOk(c.At(cur), cur) && WritesIndexedFrom(c.code, c.reached, c.s, c.At(cur).segments, cur)
    decreases |c.code| - cur
  {
    hide VariableOk, WritesIndexedFrom, StepVariable, Scan.At;
    if cur < |c.code| {
      var next := cur + 1;
      PassShape(c, next);
      AtStep(c, cur, next);
      StepShape(c, c.At(next), next, cur);
    } else {
      AtEnd(c, cur);
    }
  }

  lemma {:induction false} AtEnd(c: Scan, cur: nat)
    requires |c.reached| == |c.code| == cur
    ensures VariableOk(c.At(cur), cur) && WritesIndexedFrom(c.code, c.reached, c.s, c.At(cur).segments, cur)
  {
  }

  lemma {:induction false} StepShape(c: Scan, v: LifetimeVariable, cur: nat, o: nat)
    requires c.Ok() && o < |c.code| && cur == o + 1
    requires VariableOk(v, cur) && WritesIndexedFrom(c.code, c.reached, c.s, v.segments, cur)
    ensures var v' := if c.reached[o] then StepVariable(c.code, c.loops, c.s, v, o) else v;
            VariableOk(v', o) && WritesIndexedFrom(c.code, c.reached, c.s, v'.segments, o)
  {
    if c.reached[o] {
      StepVariableOk(c.code, c.loops, c.s, v, cur, o);
      StepIndexed(c, v.segments, StepVariable(c.code, c.loops, c.s, v, o).segments, cur, o);
    }
  }

  /** What the pass guarantees of a variable once the offsets from cur on are processed. */
  ghost predicate SlotOk(code: Script, reached: seq<bool>, loops: map<nat, nat>, s: nat, v: LifetimeVariable, cur: nat) {
    && |reached| == |code| && cur <= |code| && v == Scan(code, reached, loops, s).At(cur)
    && VariableOk(v, cur) && WritesIndexedFrom(code, reached, s, v.segments, cur)
  }

  lemma {:induction false} SlotStart(code: Script, reached: seq<bool>, loops: map<nat, nat>, s: nat)
    requires ReachClosed(code, reached) && LoopTable(code, reached, loops)
    ensures SlotOk(code, reached, loops, s, LifetimeVariable(false, [], 0), |code|)
  {
  }

  lemma {:induction false} SlotStep(code: Script, reached: seq<bool>, loops: map<nat, nat>, s: nat, v: LifetimeVariable, cur: nat, o: nat)
    requires ReachClosed(code, reached) && StructuredLoops(code, reached, loops)
    requires o < |code| && cur == o + 1 && SlotOk(code, reached, loops, s, v, cur)
    ensures SlotOk(code, reached, loops, s, if reached[o] then StepVariable(code, loops, s, v, o) else v, o)
  {
    var c := Scan(code, reached, loops, s);
    PassShape(c, o);
    AtStep(c, o, cur);
  }

  /** A loop inside an active loop starts after its head, so the heads of active loops are stacked in order. */
  lemma {:induction false} StackOrder(code: Script, reached: seq<bool>, loops: map<nat, nat>, h: nat, g: nat)
    requires |reached| == |code| && StructuredLoops(code, reached, loops) && h in loops && g in loops
    requires h < loops[g] < loops[h]
    ensures h < g
  {
  }

  /** What is covered stays covered. */
  lemma {:induction false} StaysCovered(c: Scan, hi: nat, cur: nat, t: nat)
    requires c.Ok() && cur <= hi <= t && hi <= |c.code| && Covered(c.At(hi), t)
    ensures Covered(c.At(cur), t)
    decreases hi - cur
  {
    if cur < hi {
      var next := cur + 1;
      StaysCovered(c, hi, next, t);
      PassShape(c, next);
      AtStep(c, cur, next);
      if c.reached[cur] {
        StepVariableOk(c.code, c.loops, c.s, c.At(next), next, cur);
      }
    }
  }

  // ------------------------------------------------------------------ loops

  /** Loops do not cross: one whose head is in another one ends in it. */
  lemma {:induction false} LoopsNest(c: Scan, h: nat, g: nat)
    requires c.Ok() && h in c.loops && g in c.loops && h < g <= c.loops[h]
    ensures c.loops[g] < c.loops[h]
  {
    assert JumpEdge(c.code, c.loops[g], g);
    assert JumpEdge(c.code, c.loops[h], h);
  }

  /** Control comes back to an offset from later ones only through a back edge. */
  lemma {:induction false} EntersFromAfter(c: Scan, x: nat, o: nat)
    requires c.Ok() && x < |c.code| && c.reached[x] && x >= o && Edge(c.code, x, o)
    ensures o in c.loops && c.loops[o] == x
  {
    assert BackEdge(c.code, x, o);
  }

  // ------------------------------------------------------------------ gaps

  /** A gap between two segments ends at a write; if it ends before b, the jumps in it are remembered. */
  ghost predicate GapOk(c: Scan, seg: Lifetime, next: Lifetime, b: nat) {
    seg.end < next.start ==>
      && c.Kills(next.start) && next.write
      && (next.start < b ==> forall x: nat :: seg.end < x < next.start && c.Leaves(x) ==> x <= seg.savedEnd)
  }

  ghost predicate GapsOk(c: Scan, segs: seq<Lifetime>, b: nat) {
    forall i :: 0 <= i < |segs| - 1 ==> GapOk(c, segs[i], segs[i + 1], b)
  }

  /** The same for the gap before the first segment of a dead variable. */
  ghost predicate FrontOk(c: Scan, v: LifetimeVariable, cur: nat, b: nat) {
    !v.alive && |v.segments| > 0 ==>
      && c.Kills(v.segments[0].start)
      && (v.segments[0].start < b ==> forall x: nat :: cur <= x < v.segments[0].start && c.Leaves(x) ==> x <= v.savedEnd)
  }

  ghost predicate Bridged(c: Scan, v: LifetimeVariable, cur: nat, b: nat) {
    GapsOk(c, v.segments, b) && FrontOk(c, v, cur, b)
  }

  lemma {:induction false} ConsGaps(c: Scan, seg: Lifetime, rest: seq<Lifetime>, b: nat)
    requires GapsOk(c, rest, b) && (|rest| > 0 ==> GapOk(c, seg, rest[0], b))
    ensures GapsOk(c, [seg] + rest, b)
  {
    var r := [seg] + rest;
    forall i | 0 <= i < |r| - 1
      ensures GapOk(c, r[i], r[i + 1], b)
    {
      if i > 0 {
        assert GapOk(c, rest[i - 1], rest[i - 1 + 1], b);
      }
    }
  }

  lemma {:induction false} RestGaps(c: Scan, segs: seq<Lifetime>, b: nat)
    requires GapsOk(c, segs, b) && |segs| > 0
    ensures GapsOk(c, segs[1..], b) && (|segs| > 1 ==> GapOk(c, segs[0], segs[1], b))
  {
    forall i | 0 <= i < |segs[1..]| - 1
      ensures GapOk(c, segs[1..][i], segs[1..][i + 1], b)
    {
      assert GapOk(c, segs[i + 1], segs[i + 1 + 1], b);
    }
  }

  /** Another start or write flag of the first segment changes no gap after it. */
  lemma {:induction false} HeadGaps(c: Scan, segs: seq<Lifetime>, seg: Lifetime, b: nat)
    requires GapsOk(c, segs, b) && |segs| > 0 && seg.end == segs[0].end && seg.savedEnd == segs[0].savedEnd
    ensures GapsOk(c, segs[0 := seg], b)
  {
    RestGaps(c, segs, b);
    ConsGaps(c, seg, segs[1..], b);
    assert segs[0 := seg] == [seg] + segs[1..];
  }

  lemma {:induction false} ReviveBridged(c: Scan, v: LifetimeVariable, cur: nat, o: nat, b: nat)
    requires Bridged(c, v, cur, b) && VariableOk(v, cur) && !v.alive && cur <= o + 1
    ensures Bridged(c, Revive(v, o), o, b)
  {
    ConsGaps(c, Point(o, v.savedEnd, false), v.segments, b);
  }

  lemma {:induction false} AddBridged(c: Scan, v: LifetimeVariable, cur: nat, o: nat, b: nat)
    requires Bridged(c, v, cur, b) && VariableOk(v, cur) && cur <= o + 1
    ensures Bridged(c, AddVariable(v, o), o, b)
  {
    if v.alive {
      HeadGaps(c, v.segments, v.segments[0].(start := o), b);
    } else {
      ReviveBridged(c, v, cur, o, b);
    }
  }

  /** The gaps after a kill; the kill itself starts the list. */
  lemma {:induction false} KillGaps(c: Scan, v: LifetimeVariable, cur: nat, o: nat, b: nat)
    requires Bridged(c, v, cur, b) && VariableOk(v, cur) && cur == o + 1
    ensures GapsOk(c, KillVariable(v, o).segments, b)
    ensures |KillVariable(v, o).segments| > 0 && KillVariable(v, o).segments[0].start == o
    ensures KillVariable(v, o).segments[0].write
  {
    if v.alive {
      HeadGaps(c, v.segments, v.segments[0].(start := o, write := true), b);
    } else {
      ConsGaps(c, Point(o, v.savedEnd, true), v.segments, b);
    }
  }

  /** An increment kills the variable and revives it at once, which leaves no gap. */
  lemma {:induction false} IncBridged(c: Scan, v: LifetimeVariable, cur: nat, o: nat, b: nat)
    requires Bridged(c, v, cur, b) && VariableOk(v, cur) && cur == o + 1
    ensures Bridged(c, AddVariable(KillVariable(v, o), o), o, b)
  {
    KillGaps(c, v, cur, o, b);
    var k := KillVariable(v, o);
    ConsGaps(c, Point(o, k.savedEnd, false), k.segments, b);
  }

  lemma {:induction false} IdleBridged(c: Scan, v: LifetimeVariable, cur: nat, o: nat, b: nat)
    requires Bridged(c, v, cur, b) && cur == o + 1
    requires v.alive || |v.segments| == 0 || !c.Leaves(o)
    ensures Bridged(c, v, o, b)
  {
    if !v.alive && |v.segments| > 0 && v.segments[0].start < b {
      forall x: nat | o <= x < v.segments[0].start && c.Leaves(x)
        ensures x <= v.savedEnd
      {
        assert x != o;
      }
    }
  }

  lemma {:induction false} JumpBridged(c: Scan, v: LifetimeVariable, cur: nat, o: nat, target: nat, inLoop: bool, b: nat)
    requires Bridged(c, v, cur, b) && VariableOk(v, cur) && cur == o + 1 && (b != 0 ==> inLoop)
    ensures Bridged(c, JumpVariable(v, o, target, inLoop), o, b)
  {
    if v.alive || |v.segments| == 0 {
    } else if Covered(v, target) {
      ReviveBridged(c, v, cur, o, b);
    } else {
      assert forall x: nat :: o <= x < v.segments[0].start && c.Leaves(x) && x != o ==> cur <= x;
    }
  }

  /** Extending over a loop that ends before b. */
  lemma {:induction false} ExtendGaps(c: Scan, segs: seq<Lifetime>, end: nat, b: nat)
    requires SegmentsOk(segs) && GapsOk(c, segs, b)
    ensures GapsOk(c, ExtendFrom(segs, end), b)
    decreases |segs|
  {
    if |segs| > 0 && segs[0].start < end {
      var seg, rest := segs[0], ExtendFrom(segs[1..], end);
      RestGaps(c, segs, b);
      RestOk(segs);
      ExtendGaps(c, segs[1..], end, b);
      ExtendOk(segs[1..], end);
      var to := if |segs| == 1 || segs[1].start >= end then end else seg.savedEnd;
      ConsGaps(c, seg, rest, b);
      if to > seg.end {
        var tail := Tail(seg, to, end);
        ConsGaps(c, tail, rest, b);
        ConsGaps(c, seg.(savedEnd := 0), [tail] + rest, b);
        assert [seg.(savedEnd := 0)] + ([tail] + rest) == [seg.(savedEnd := 0), tail] + rest;
      }
    }
  }

  lemma {:induction false} HeadBridged(c: Scan, v: LifetimeVariable, cur: nat, h: nat, end: nat, b: nat)
    requires Bridged(c, v, cur, b) && VariableOk(v, cur) && cur == h + 1 && !c.Leaves(h)
    ensures Bridged(c, ExtendVariable(v, h, end), h, b)
  {
    if v.alive {
      var r := v.segments[0 := v.segments[0].(start := h)];
      ReplaceHeadOk(v, cur, h, false);
      assert r == v.segments[0 := v.segments[0].(start := h, write := false)];
      HeadGaps(c, v.segments, v.segments[0].(start := h), b);
      ExtendGaps(c, r, end, b);
    } else {
      IdleBridged(c, v, cur, h, b);
    }
  }

  lemma {:induction false} OpBridged(c: Scan, v: LifetimeVariable, cur: nat, o: nat, b: nat)
    requires Bridged(c, v, cur, b) && VariableOk(v, cur) && cur == o + 1
    requires o < |c.code| == |c.reached| && c.reached[o] && !IsJump(c.code[o])
    ensures Bridged(c, OpVariable(v, c.code[o], c.s, o), o, b)
  {
    var op := c.code[o];
    if op.GetSlot? && op.slot == c.s {
      AddBridged(c, v, cur, o, b);
    } else if op.SetSlot? && op.slot == c.s {
      KillGaps(c, v, cur, o, b);
    } else if op.IncSlot? && op.slot == c.s {
      IncBridged(c, v, cur, o, b);
    } else if op.Switch? && !v.alive && |v.segments| > 0 {
      ReviveBridged(c, v, cur, o, b);
    } else {
      IdleBridged(c, v, cur, o, b);
    }
  }

  lemma {:induction false} StepBridged(c: Scan, v: LifetimeVariable, cur: nat, o: nat, b: nat)
    requires c.Ok() && Bridged(c, v, cur, b) && VariableOk(v, cur) && cur == o + 1
    requires o < |c.code| && c.reached[o] && (b != 0 ==> InLoop(c.loops, o))
    ensures Bridged(c, StepVariable(c.code, c.loops, c.s, v, o), o, b)
  {
    hide Bridged, VariableOk, ExtendVariable, AddVariable, KillVariable;
    if o in c.loops {
      HeadBridged(c, v, cur, o, c.loops[o], b);
    } else if !IsJump(c.code[o]) {
      OpBridged(c, v, cur, o, b);
    } else if c.code[o].target >= o {
      JumpBridged(c, v, cur, o, c.code[o].target, InLoop(c.loops, o), b);
    } else {
      IdleBridged(c, v, cur, o, b);
    }
  }

  /** After the pass down to an offset, all gaps end at writes and remember the jumps in the loops around it. */
  lemma {:induction false} PassBridged(c: Scan, cur: nat, b: nat)
    requires c.Ok() && cur <= |c.code| && c.Bound(cur, b)
    ensures Bridged(c, c.At(cur), cur, b)
    decreases |c.code| - cur, b
  {
    if cur < |c.code| {
      PassShape(c, cur);
      if b == cur && b != 0 {
        PassBridged(c, cur, 0);
      } else {
        var next := cur + 1;
        PassShape(c, next);
        AtStep(c, cur, next);
        PassBridged(c, next, b);
        if c.reached[cur] {
          StepBridged(c, c.At(next), next, cur, b);
        } else {
          IdleBridged(c, c.At(next), next, cur, b);
        }
      }
    }
  }
}
