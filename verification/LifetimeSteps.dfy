/**
 What the backward lifetime pass does to the segments of one variable, and the
 invariant of the segment list.
 */
module LifetimeSteps {
  import opened Bytecode
  import opened Lifetimes

  function Point(offset: nat, savedEnd: nat, write: bool): Lifetime {
    Lifetime(offset, offset, savedEnd, false, write)
  }

  /** The variable becomes live at the offset. */
  function Revive(v: LifetimeVariable, offset: nat): LifetimeVariable {
    LifetimeVariable(true, [Point(offset, v.savedEnd, false)] + v.segments, v.savedEnd)
  }

  /** `addVariable`: the operation at the offset reads the variable. */
  function AddVariable(v: LifetimeVariable, offset: nat): LifetimeVariable
    requires v.alive ==> |v.segments| > 0
  {
    if v.alive then v.(segments := v.segments[0 := v.segments[0].(start := offset)])
    else Revive(v, offset)
  }

  /** `killVariable`: the operation at the offset writes the variable. */
  function KillVariable(v: LifetimeVariable, offset: nat): LifetimeVariable
    requires v.alive ==> |v.segments| > 0
  {
    if v.alive then
      LifetimeVariable(false, v.segments[0 := v.segments[0].(start := offset, write := true)], 0)
    else
      LifetimeVariable(false, [Point(offset, v.savedEnd, true)] + v.segments, 0)
  }

  /** The segment that connects `seg` with `to`, in a loop with back edge `end`. */
  function Tail(seg: Lifetime, to: nat, end: nat): Lifetime {
    Lifetime(seg.end, to, if seg.savedEnd > end then seg.savedEnd else 0, true, false)
  }

  /** `extendVariable`: fill the gaps between the segments that start before the back edge `end`. */
  function ExtendFrom(segs: seq<Lifetime>, end: nat): (r: seq<Lifetime>)
    ensures |segs| > 0 ==> |r| > 0
  {
    if |segs| == 0 || segs[0].start >= end then segs
    else
      var last := |segs| == 1 || segs[1].start >= end;
      var to := if last then end else segs[0].savedEnd;
      if last && segs[0].end >= end then segs
      else if to > segs[0].end then
        [segs[0].(savedEnd := 0), Tail(segs[0], to, end)] + ExtendFrom(segs[1..], end)
      else
        [segs[0]] + ExtendFrom(segs[1..], end)
  }

  function ExtendVariable(v: LifetimeVariable, head: nat, backedge: nat): (r: LifetimeVariable)
    requires v.alive ==> |v.segments| > 0
    ensures r.alive ==> |r.segments| > 0
  {
    if v.alive then v.(segments := ExtendFrom(v.segments[0 := v.segments[0].(start := head)], backedge))
    else v
  }

  /** The variable is live at the offset, as far as the pass knows. */
  ghost predicate Covered(v: LifetimeVariable, o: nat) {
    Covers(v.segments, o) || (v.alive && |v.segments| > 0 && o <= v.segments[0].end)
  }

  /** A forward jump: a dead variable that is live at the target revives, others remember the jump when in a loop. */
  ghost function JumpVariable(v: LifetimeVariable, offset: nat, target: nat, inLoop: bool): LifetimeVariable {
    if v.alive || |v.segments| == 0 then v
    else if Covered(v, target) then Revive(v, offset)
    else if inLoop && v.savedEnd == 0 then v.(savedEnd := offset)
    else v
  }

  /** A switch revives every dead variable that has a later segment. */
  function SwitchVariable(v: LifetimeVariable, offset: nat): LifetimeVariable {
    if v.alive || |v.segments| == 0 then v else Revive(v, offset)
  }

  /** The effect of the operation itself. */
  function OpVariable(v: LifetimeVariable, op: Op, s: nat, offset: nat): LifetimeVariable
    requires v.alive ==> |v.segments| > 0
  {
    if op.GetSlot? && op.slot == s then AddVariable(v, offset)
    else if op.SetSlot? && op.slot == s then KillVariable(v, offset)
    else if op.IncSlot? && op.slot == s then AddVariable(KillVariable(v, offset), offset)
    else if op.Switch? then SwitchVariable(v, offset)
    else v
  }

  /** Forward jumps are remembered in the body of a loop. */
  ghost predicate InLoop(loops: map<nat, nat>, o: nat) {
    exists h :: h in loops && h < o < loops[h]
  }

  /** What the pass does to variable s at a reached offset. */
  ghost function StepVariable(code: Script, loops: map<nat, nat>, s: nat, v: LifetimeVariable, o: nat): (r: LifetimeVariable)
    requires o < |code| && (v.alive ==> |v.segments| > 0)
    ensures r.alive ==> |r.segments| > 0
  {
    var op := code[o];
    var v1 := if o in loops then ExtendVariable(v, o, loops[o]) else v;
    var v2 := OpVariable(v1, op, s, o);
    if IsJump(op) && op.target >= o then JumpVariable(v2, o, op.target, InLoop(loops, o)) else v2
  }

  // ------------------------------------------------------------------ invariant of one variable

  /** Sorted segments; a pending end lies in the gap after its segment. */
  ghost predicate SegmentsOk(segs: seq<Lifetime>) {
    && Sorted(segs)
    && forall i :: 0 <= i < |segs| && segs[i].savedEnd != 0 ==>
         i + 1 < |segs| && segs[i].end < segs[i].savedEnd < segs[i + 1].start
  }

  ghost predicate VariableOk(v: LifetimeVariable, cur: nat) {
    && SegmentsOk(v.segments) && DistinctWrites(v.segments)
    && (forall i :: 0 <= i < |v.segments| ==> cur <= v.segments[i].start)
    && (v.alive ==> |v.segments| > 0 && !v.segments[0].write)
    && (!v.alive && |v.segments| > 0 ==> v.segments[0].write)
    && (!v.alive && v.savedEnd != 0 ==> |v.segments| > 0 && cur <= v.savedEnd < v.segments[0].start)
  }

  lemma {:induction false} ConsFacts(seg: Lifetime, rest: seq<Lifetime>)
    ensures forall w :: WriteAt([seg] + rest, w) <==> WriteAt(rest, w) || (seg.write && seg.start == w)
    ensures forall t: nat :: Covers([seg] + rest, t) <==> Covers(rest, t) || seg.start <= t <= seg.end
  {
    var r := [seg] + rest;
    forall w
      ensures WriteAt(r, w) <==> WriteAt(rest, w) || (seg.write && seg.start == w)
    {
      if WriteAt(rest, w) {
        var i :| 0 <= i < |rest| && rest[i].write && rest[i].start == w;
        assert r[i + 1] == rest[i];
      }
      if seg.write && seg.start == w {
        assert r[0] == seg;
      }
    }
    forall t: nat
      ensures Covers(r, t) <==> Covers(rest, t) || seg.start <= t <= seg.end
    {
      if Covers(rest, t) {
        var i :| 0 <= i < |rest| && rest[i].start <= t <= rest[i].end;
        assert r[i + 1] == rest[i];
      }
      if seg.start <= t <= seg.end {
        assert r[0] == seg;
      }
    }
  }

  lemma {:induction false} ConsDistinct(seg: Lifetime, rest: seq<Lifetime>)
    requires DistinctWrites(rest) && (seg.write ==> !WriteAt(rest, seg.start))
    ensures DistinctWrites([seg] + rest)
  {
  }

  lemma {:induction false} ReviveOk(v: LifetimeVariable, cur: nat, o: nat)
    requires VariableOk(v, cur) && !v.alive && o <= cur && (o == cur ==> v.savedEnd == 0)
    ensures VariableOk(Revive(v, o), o)
    ensures forall w :: WriteAt(Revive(v, o).segments, w) <==> WriteAt(v.segments, w)
    ensures forall t :: Covers(v.segments, t) ==> Covers(Revive(v, o).segments, t)
  {
    var seg := Point(o, v.savedEnd, false);
    ConsOk(seg, v.segments);
    ConsFacts(seg, v.segments);
    ConsDistinct(seg, v.segments);
    assert forall i :: 0 < i < |[seg] + v.segments| ==> ([seg] + v.segments)[i] == v.segments[i - 1];
  }

  /** Lists that start no earlier than cur hold no write before it. */
  lemma {:induction false} NoEarlierWrite(segs: seq<Lifetime>, cur: nat, o: nat)
    requires (forall i :: 0 <= i < |segs| ==> cur <= segs[i].start) && o < cur
    ensures !WriteAt(segs, o)
  {
  }

  /** The head of the segment list replaced by one that starts earlier. */
  lemma {:induction false} ReplaceHeadOk(v: LifetimeVariable, cur: nat, o: nat, write: bool)
    requires VariableOk(v, cur) && v.alive && o <= cur && (write ==> o < cur)
    ensures var r := v.segments[0 := v.segments[0].(start := o, write := write)];
            && SegmentsOk(r) && DistinctWrites(r)
            && (forall i :: 0 <= i < |r| ==> o <= r[i].start)
            && (forall w :: WriteAt(r, w) <==> WriteAt(v.segments, w) || (write && w == o))
            && (forall t :: t >= o && Covered(v, t) ==> Covers(r, t))
  {
    var seg, rest := v.segments[0], v.segments[1..];
    var seg' := seg.(start := o, write := write);
    assert v.segments == [seg] + rest;
    assert v.segments[0 := seg'] == [seg'] + rest;
    assert SegmentsOk(rest) && DistinctWrites(rest) by {
      assert forall i :: 0 <= i < |rest| ==> rest[i] == v.segments[i + 1];
    }
    ConsOk(seg', rest);
    ConsFacts(seg, rest);
    ConsFacts(seg', rest);
    if write {
      NoEarlierWrite(rest, cur, o);
    }
    ConsDistinct(seg', rest);
  }

  lemma {:induction false} KillOk(v: LifetimeVariable, cur: nat, o: nat)
    requires VariableOk(v, cur) && o < cur
    ensures VariableOk(KillVariable(v, o), o)
    ensures forall w :: WriteAt(KillVariable(v, o).segments, w) <==> WriteAt(v.segments, w) || w == o
    ensures forall t :: t >= cur && Covered(v, t) ==> Covered(KillVariable(v, o), t)
  {
    if v.alive {
      ReplaceHeadOk(v, cur, o, true);
    } else {
      var seg := Point(o, v.savedEnd, true);
      ConsOk(seg, v.segments);
      ConsFacts(seg, v.segments);
      NoEarlierWrite(v.segments, cur, o);
      ConsDistinct(seg, v.segments);
      assert forall i :: 0 < i < |[seg] + v.segments| ==> ([seg] + v.segments)[i] == v.segments[i - 1];
    }
  }

  lemma {:induction false} AddOk(v: LifetimeVariable, cur: nat, o: nat)
    requires VariableOk(v, cur) && o <= cur && (!v.alive && o == cur ==> v.savedEnd == 0)
    ensures VariableOk(AddVariable(v, o), o)
    ensures forall w :: WriteAt(AddVariable(v, o).segments, w) <==> WriteAt(v.segments, w)
    ensures forall t :: t >= o && Covered(v, t) ==> Covered(AddVariable(v, o), t)
  {
    if v.alive {
      ReplaceHeadOk(v, cur, o, false);
      assert !v.segments[0].write;
    } else {
      ReviveOk(v, cur, o);
    }
  }

  // ------------------------------------------------------------------ extending over a loop

  lemma {:induction false} RestOk(segs: seq<Lifetime>)
    requires SegmentsOk(segs) && |segs| > 0
    ensures SegmentsOk(segs[1..])
  {
    assert forall i :: 0 <= i < |segs[1..]| ==> segs[1..][i] == segs[i + 1];
  }

  lemma {:induction false} ExtendOk(segs: seq<Lifetime>, end: nat)
    requires SegmentsOk(segs)
    ensures SegmentsOk(ExtendFrom(segs, end))
    ensures |segs| > 0 ==> |ExtendFrom(segs, end)| > 0 && ExtendFrom(segs, end)[0].start == segs[0].start
                           && ExtendFrom(segs, end)[0].end == segs[0].end && ExtendFrom(segs, end)[0].write == segs[0].write
    ensures |segs| == 0 ==> ExtendFrom(segs, end) == []
    decreases |segs|
  {
    if |segs| > 0 && segs[0].start < end {
      var rest := ExtendFrom(segs[1..], end);
      RestOk(segs);
      ExtendOk(segs[1..], end);
      var last := |segs| == 1 || segs[1].start >= end;
      var to := if last then end else segs[0].savedEnd;
      if !(last && segs[0].end >= end) {
        if to > segs[0].end {
          ExtendTailOk(segs, end, to, rest);
        } else {
          ConsOk(segs[0], rest);
        }
      }
    }
  }

  lemma {:induction false} ConsOk(seg: Lifetime, rest: seq<Lifetime>)
    requires SegmentsOk(rest) && seg.start <= seg.end
    requires |rest| > 0 ==> seg.end <= rest[0].start
    requires seg.savedEnd != 0 ==> |rest| > 0 && seg.end < seg.savedEnd < rest[0].start
    ensures SegmentsOk([seg] + rest)
  {
    var r := [seg] + rest;
    assert forall i :: 0 < i < |r| ==> r[i] == rest[i - 1];
    forall i, j | 0 <= i < j < |r|
      ensures r[i].end <= r[j].start
    {
      if i == 0 && j > 1 {
        assert rest[0].end <= rest[j - 1].start;
      }
    }
  }

  lemma {:induction false} ExtendTailOk(segs: seq<Lifetime>, end: nat, to: nat, rest: seq<Lifetime>)
    requires SegmentsOk(segs) && SegmentsOk(rest) && |segs| > 0 && segs[0].start < end
    requires |rest| > 0 <==> |segs| > 1
    requires |segs| > 1 ==> rest[0].start == segs[1].start
    requires to == if |segs| == 1 || segs[1].start >= end then end else segs[0].savedEnd
    requires to > segs[0].end
    ensures SegmentsOk([segs[0].(savedEnd := 0), Tail(segs[0], to, end)] + rest)
  {
    var tail := Tail(segs[0], to, end);
    ConsOk(tail, rest);
    ConsOk(segs[0].(savedEnd := 0), [tail] + rest);
    assert [segs[0].(savedEnd := 0)] + ([tail] + rest) == [segs[0].(savedEnd := 0), tail] + rest;
  }

  lemma {:induction false} ExtendFacts(segs: seq<Lifetime>, end: nat)
    requires SegmentsOk(segs)
    ensures forall w :: WriteAt(ExtendFrom(segs, end), w) <==> WriteAt(segs, w)
    ensures forall t: nat :: Covers(segs, t) ==> Covers(ExtendFrom(segs, end), t)
    decreases |segs|
  {
    hide Sorted, SegmentsOk, WriteAt, Covers;
    if |segs| > 0 && segs[0].start < end {
      var seg, rest := segs[0], ExtendFrom(segs[1..], end);
      assert segs == [seg] + segs[1..];
      RestOk(segs);
      ExtendFacts(segs[1..], end);
      ConsFacts(seg, segs[1..]);
      ConsFacts(seg, rest);
      var to := if |segs| == 1 || segs[1].start >= end then end else seg.savedEnd;
      var tail := Tail(seg, to, end);
      ConsFacts(tail, rest);
      ConsFacts(seg.(savedEnd := 0), [tail] + rest);
      assert [seg.(savedEnd := 0)] + ([tail] + rest) == [seg.(savedEnd := 0), tail] + rest;
    }
  }

  lemma {:induction false} ExtendDistinct(segs: seq<Lifetime>, end: nat)
    requires SegmentsOk(segs) && DistinctWrites(segs)
    ensures DistinctWrites(ExtendFrom(segs, end))
    decreases |segs|
  {
    if |segs| > 0 && segs[0].start < end {
      var seg, rest := segs[0], ExtendFrom(segs[1..], end);
      RestDistinct(segs);
      ExtendDistinct(segs[1..], end);
      ExtendFacts(segs[1..], end);
      ConsDistinct(seg, rest);
      var to := if |segs| == 1 || segs[1].start >= end then end else seg.savedEnd;
      TailDistinct(seg.(savedEnd := 0), Tail(seg, to, end), rest);
    }
  }

  lemma {:induction false} RestDistinct(segs: seq<Lifetime>)
    requires SegmentsOk(segs) && DistinctWrites(segs) && |segs| > 0
    ensures SegmentsOk(segs[1..]) && DistinctWrites(segs[1..]) && (segs[0].write ==> !WriteAt(segs[1..], segs[0].start))
  {
  }

  lemma {:induction false} TailDistinct(seg: Lifetime, tail: Lifetime, rest: seq<Lifetime>)
    requires DistinctWrites(rest) && !tail.write && (seg.write ==> !WriteAt(rest, seg.start))
    ensures DistinctWrites([seg, tail] + rest)
  {
  }

  /** Where a gap after segment i is filled: up to the back edge for the last one in the loop, else up to its pending end. */
  ghost predicate Filled(segs: seq<Lifetime>, end: nat, i: nat, t: nat)
    requires i < |segs|
  {
    && segs[i].start < end && segs[i].end < t
    && t <= if i + 1 == |segs| || segs[i + 1].start >= end then end else segs[i].savedEnd
  }

  lemma {:induction false} ExtendFills(segs: seq<Lifetime>, end: nat, i: nat, t: nat)
    requires SegmentsOk(segs) && i < |segs| && Filled(segs, end, i, t)
    ensures Covers(ExtendFrom(segs, end), t)
    decreases |segs|
  {
    var seg, rest := segs[0], ExtendFrom(segs[1..], end);
    assert seg.start <= segs[i].start < end;
    var last := |segs| == 1 || segs[1].start >= end;
    var to := if last then end else seg.savedEnd;
    var tail := Tail(seg, to, end);
    ConsFacts(tail, rest);
    ConsFacts(seg, rest);
    ConsFacts(seg.(savedEnd := 0), [tail] + rest);
    assert [seg.(savedEnd := 0)] + ([tail] + rest) == [seg.(savedEnd := 0), tail] + rest;
    if i > 0 {
      RestOk(segs);
      ExtendFills(segs[1..], end, i - 1, t);
    }
  }

  lemma {:induction false} ExtendVariableOk(v: LifetimeVariable, cur: nat, head: nat, backedge: nat)
    requires VariableOk(v, cur) && head < cur
    ensures VariableOk(ExtendVariable(v, head, backedge), head)
    ensures ExtendVariable(v, head, backedge).alive == v.alive
    ensures forall w :: WriteAt(ExtendVariable(v, head, backedge).segments, w) <==> WriteAt(v.segments, w)
    ensures forall t: nat :: t >= head && Covered(v, t) ==> Covered(ExtendVariable(v, head, backedge), t)
  {
    if v.alive {
      ReplaceHeadOk(v, cur, head, false);
      var r := v.segments[0 := v.segments[0].(start := head, write := false)];
      assert r == v.segments[0 := v.segments[0].(start := head)];
      ExtendOk(r, backedge);
      ExtendFacts(r, backedge);
      ExtendDistinct(r, backedge);
      var e := ExtendFrom(r, backedge);
      assert forall i :: 0 <= i < |e| ==> head <= e[i].start by {
        assert e[0].start == head && e[0].start <= e[0].end;
      }
    }
  }

  // ------------------------------------------------------------------ one step

  lemma {:induction false} OpVariableOk(v: LifetimeVariable, op: Op, s: nat, cur: nat, o: nat)
    requires VariableOk(v, cur) && o < cur
    ensures VariableOk(OpVariable(v, op, s, o), o)
    ensures forall w :: WriteAt(OpVariable(v, op, s, o).segments, w) <==> WriteAt(v.segments, w) || (w == o && Writes(op, s))
    ensures forall t: nat :: t >= cur && Covered(v, t) ==> Covered(OpVariable(v, op, s, o), t)
  {
    if op.GetSlot? && op.slot == s {
      AddOk(v, cur, o);
    } else if op.SetSlot? && op.slot == s {
      KillOk(v, cur, o);
    } else if op.IncSlot? && op.slot == s {
      KillOk(v, cur, o);
      AddOk(KillVariable(v, o), o, o);
    } else if op.Switch? && !v.alive && |v.segments| > 0 {
      ReviveOk(v, cur, o);
    }
  }

  lemma {:induction false} JumpVariableOk(v: LifetimeVariable, cur: nat, o: nat, target: nat, inLoop: bool)
    requires VariableOk(v, cur) && o < cur
    ensures VariableOk(JumpVariable(v, o, target, inLoop), o)
    ensures forall w :: WriteAt(JumpVariable(v, o, target, inLoop).segments, w) <==> WriteAt(v.segments, w)
    ensures forall t: nat :: Covered(v, t) ==> Covered(JumpVariable(v, o, target, inLoop), t)
  {
    if !v.alive && |v.segments| > 0 && Covered(v, target) {
      ReviveOk(v, cur, o);
    }
  }

  /** A step keeps the segments in order, records a write exactly when the operation is one, and uncovers nothing. */
  lemma {:induction false} StepVariableOk(code: Script, loops: map<nat, nat>, s: nat, v: LifetimeVariable, cur: nat, o: nat)
    requires VariableOk(v, cur) && o + 1 == cur && o < |code|
    requires o in loops ==> code[o].LoopHead?
    ensures VariableOk(StepVariable(code, loops, s, v, o), o)
    ensures forall w :: WriteAt(StepVariable(code, loops, s, v, o).segments, w) <==>
                        WriteAt(v.segments, w) || (w == o && Writes(code[o], s))
    ensures forall t: nat :: t >= cur && Covered(v, t) ==> Covered(StepVariable(code, loops, s, v, o), t)
  {
    hide VariableOk, WriteAt, Covers, ExtendVariable, AddVariable, KillVariable;
    var op := code[o];
    if o in loops {
      ExtendVariableOk(v, cur, o, loops[o]);
    } else if IsJump(op) && op.target >= o {
      JumpVariableOk(v, cur, o, op.target, InLoop(loops, o));
    } else {
      OpVariableOk(v, op, s, cur, o);
    }
  }
}
