/**
 Which offsets the lifetime segments of a variable cover, read off the code: those
 from which a walk leads forward to an access, and those from which a loop comes
 round to a head from which one does.
 */
module Coverage {
  import opened Bytecode
  import opened Lifetimes
  import opened LifetimeSteps
  import opened LifetimeGaps
  import opened Liveness

  ghost predicate WritesAt(c: Scan, x: nat) {
    x < |c.code| && x < |c.reached| && c.reached[x] && Writes(c.code[x], c.s)
  }

  ghost predicate AccessedAt(c: Scan, x: nat) {
    x < |c.code| && x < |c.reached| && c.reached[x] && (Reads(c.code[x], c.s) || Writes(c.code[x], c.s))
  }

  /** A reached jump forward. */
  ghost predicate ForwardJump(c: Scan, x: nat) {
    x < |c.code| && x < |c.reached| && c.reached[x] && IsJump(c.code[x]) && c.code[x].target > x
  }

  /** Operation x may jump forward to y; a switch is taken to jump to any later offset. */
  ghost predicate JumpsTo(c: Scan, x: nat, y: nat) {
    && x < y && x < |c.code| && x < |c.reached| && c.reached[x]
    && (c.code[x].Switch? || (IsJump(c.code[x]) && c.code[x].target == y))
  }

  /** A step of a walk: to the next offset, or by a jump forward, and not past a write to the variable. */
  ghost predicate Goes(c: Scan, x: nat, y: nat) {
    !WritesAt(c, x) && (y == x + 1 || JumpsTo(c, x, y))
  }

  /** A walk to an access; to one that only writes, it must start there or jump there. */
  ghost predicate IsWalk(c: Scan, p: seq<nat>) {
    && |p| > 0
    && (forall i :: 0 < i < |p| ==> Goes(c, p[i - 1], p[i]))
    && AccessedAt(c, p[|p| - 1])
    && (c.Kills(p[|p| - 1]) ==> |p| == 1 || JumpsTo(c, p[|p| - 2], p[|p| - 1]))
  }

  ghost predicate WalkFrom(c: Scan, p: seq<nat>, t: nat) {
    IsWalk(c, p) && p[0] == t
  }

  ghost predicate LeadsToAccess(c: Scan, t: nat) {
    exists p :: WalkFrom(c, p, t)
  }

  /** No write from t on before x, which is the back edge or a jump forward. */
  ghost predicate StraightTo(c: Scan, h: nat, t: nat, x: nat)
    requires h in c.loops
  {
    && t <= x <= c.loops[h] && (x == c.loops[h] || ForwardJump(c, x))
    && forall w :: t <= w < x ==> !WritesAt(c, w)
  }

  /**
   The loop h may come round from t: no write separates t from the back edge, or
   from a jump in the loop, wherever that goes.
   */
  ghost predicate ComesRound(c: Scan, h: nat, t: nat) {
    h in c.loops && h < t <= c.loops[h] && exists x :: StraightTo(c, h, t, x)
  }

  ghost predicate LoopsToAccess(c: Scan, t: nat, cur: nat) {
    exists h :: h >= cur && ComesRound(c, h, t) && LeadsToAccess(c, h)
  }

  // ------------------------------------------------------------------ walks

  lemma {:induction false} WalkCons(c: Scan, x: nat, p: seq<nat>)
    requires IsWalk(c, p) && Goes(c, x, p[0])
    requires c.Kills(p[0]) ==> JumpsTo(c, x, p[0])
    ensures WalkFrom(c, [x] + p, x)
  {
    var q := [x] + p;
    forall i | 0 < i < |q|
      ensures Goes(c, q[i - 1], q[i])
    {
      if i > 1 {
        assert Goes(c, p[i - 2], p[i - 1]);
      }
    }
    assert q[|q| - 1] == p[|p| - 1];
    if |p| > 1 {
      assert q[|q| - 2] == p[|p| - 2];
    }
  }

  lemma {:induction false} WalkTail(c: Scan, p: seq<nat>)
    requires IsWalk(c, p) && |p| > 1
    ensures IsWalk(c, p[1..]) && Goes(c, p[0], p[1]) && (c.Kills(p[1]) ==> JumpsTo(c, p[0], p[1]))
  {
    var q := p[1..];
    forall i | 0 < i < |q|
      ensures Goes(c, q[i - 1], q[i])
    {
      assert Goes(c, p[i], p[i + 1]);
    }
    if |p| > 2 {
      assert Goes(c, p[1], p[2]);
    }
  }

  lemma {:induction false} LeadsNext(c: Scan, o: nat, next: nat)
    requires next == o + 1 && LeadsToAccess(c, next) && !c.Kills(next) && !WritesAt(c, o)
    ensures LeadsToAccess(c, o)
  {
    var p :| WalkFrom(c, p, next);
    WalkCons(c, o, p);
  }

  lemma {:induction false} LeadsByJump(c: Scan, o: nat, y: nat)
    requires LeadsToAccess(c, y) && JumpsTo(c, o, y) && !WritesAt(c, o)
    ensures LeadsToAccess(c, o)
  {
    var p :| WalkFrom(c, p, y);
    WalkCons(c, o, p);
  }

  lemma {:induction false} LeadsHere(c: Scan, o: nat)
    requires AccessedAt(c, o)
    ensures LeadsToAccess(c, o)
  {
    assert WalkFrom(c, [o], o);
  }

  // ------------------------------------------------------------------ pending ends

  /** Pending ends are the offsets of jumps. */
  ghost predicate EndsAreJumps(c: Scan, v: LifetimeVariable) {
    && (v.savedEnd != 0 ==> ForwardJump(c, v.savedEnd))
    && SegmentEndsAreJumps(c, v.segments)
  }

  ghost predicate SegmentEndsAreJumps(c: Scan, segs: seq<Lifetime>) {
    forall i :: 0 <= i < |segs| && segs[i].savedEnd != 0 ==> ForwardJump(c, segs[i].savedEnd)
  }

  lemma {:induction false} ConsEnds(c: Scan, seg: Lifetime, rest: seq<Lifetime>)
    requires SegmentEndsAreJumps(c, rest) && (seg.savedEnd != 0 ==> ForwardJump(c, seg.savedEnd))
    ensures SegmentEndsAreJumps(c, [seg] + rest)
  {
  }

  lemma {:induction false} ExtendEnds(c: Scan, segs: seq<Lifetime>, end: nat)
    requires SegmentEndsAreJumps(c, segs)
    ensures SegmentEndsAreJumps(c, ExtendFrom(segs, end))
    decreases |segs|
  {
    if |segs| > 0 && segs[0].start < end {
      var seg, rest := segs[0], ExtendFrom(segs[1..], end);
      ExtendEnds(c, segs[1..], end);
      ConsEnds(c, seg, rest);
      var to := if |segs| == 1 || segs[1].start >= end then end else seg.savedEnd;
      ConsEnds(c, Tail(seg, to, end), rest);
      ConsEnds(c, seg.(savedEnd := 0), [Tail(seg, to, end)] + rest);
      assert [seg.(savedEnd := 0)] + ([Tail(seg, to, end)] + rest) == [seg.(savedEnd := 0), Tail(seg, to, end)] + rest;
    }
  }

  lemma {:induction false} OpEnds(c: Scan, v: LifetimeVariable, op: Op, o: nat)
    requires EndsAreJumps(c, v) && (v.alive ==> |v.segments| > 0)
    ensures EndsAreJumps(c, OpVariable(v, op, c.s, o))
  {
    ConsEnds(c, Point(o, v.savedEnd, false), v.segments);
    ConsEnds(c, Point(o, v.savedEnd, true), v.segments);
  }

  lemma {:induction false} NoSelfJump(c: Scan, o: nat)
    requires c.Ok() && o < |c.code| && c.reached[o] && IsJump(c.code[o])
    ensures c.code[o].target != o
  {
    if c.code[o].target == o {
      assert BackEdge(c.code, o, o);
    }
  }

  lemma {:induction false} StepEnds(c: Scan, v: LifetimeVariable, o: nat)
    requires c.Ok() && o < |c.code| && c.reached[o] && EndsAreJumps(c, v) && (v.alive ==> |v.segments| > 0)
    ensures EndsAreJumps(c, StepVariable(c.code, c.loops, c.s, v, o))
  {
    if o in c.loops {
      if v.alive {
        ExtendEnds(c, v.segments[0 := v.segments[0].(start := o)], c.loops[o]);
      }
    } else if IsJump(c.code[o]) {
      NoSelfJump(c, o);
      ConsEnds(c, Point(o, v.savedEnd, false), v.segments);
    } else {
      OpEnds(c, v, c.code[o], o);
    }
  }

  lemma {:induction false} PassEnds(c: Scan, cur: nat)
    requires c.Ok() && cur <= |c.code|
    ensures EndsAreJumps(c, c.At(cur))
    decreases |c.code| - cur
  {
    if cur < |c.code| {
      var next := cur + 1;
      PassEnds(c, next);
      AtStep(c, cur, next);
      if c.reached[cur] {
        StepEnds(c, c.At(next), cur);
      }
    }
  }

  // ------------------------------------------------------------------ covered only if a walk leads to an access

  lemma {:induction false} FirstOrdered(segs: seq<Lifetime>)
    requires SegmentsOk(segs) && |segs| > 0
    ensures segs[0].start <= segs[0].end
  {
  }

  /** What extending over a loop covers beyond the segments is filled gaps. */
  lemma {:induction false} ExtendOnly(segs: seq<Lifetime>, end: nat, t: nat) returns (i: nat)
    requires SegmentsOk(segs) && |segs| > 0 && Covers(ExtendFrom(segs, end), t) && !Covers(segs, t)
    ensures i < |segs| && Filled(segs, end, i, t)
    decreases |segs|
  {
    hide Sorted, SegmentsOk, Covers;
    var seg, rest := segs[0], ExtendFrom(segs[1..], end);
    var to := if |segs| == 1 || segs[1].start >= end then end else seg.savedEnd;
    var tail := Tail(seg, to, end);
    assert segs == [seg] + segs[1..];
    FirstOrdered(segs);
    ConsFacts(seg, segs[1..]);
    ConsFacts(seg, rest);
    ConsFacts(tail, rest);
    ConsFacts(seg.(savedEnd := 0), [tail] + rest);
    assert [seg.(savedEnd := 0)] + ([tail] + rest) == [seg.(savedEnd := 0), tail] + rest;
    if Covers(rest, t) {
      RestOk(segs);
      i := ExtendOnly(segs[1..], end, t);
      i := i + 1;
    } else {
      i := 0;
    }
  }

  /** The variable is found live at an offset only if a walk leads to an access. */
  ghost predicate Explained(c: Scan, cur: nat)
    requires |c.reached| == |c.code| && cur <= |c.code|
  {
    && (c.At(cur).alive ==> LeadsToAccess(c, cur) && !c.Kills(cur))
    && (forall t: nat :: t >= cur && Covered(c.At(cur), t) ==> LeadsToAccess(c, t) || LoopsToAccess(c, t, cur))
  }

  /** Where the pass is, the variable is covered exactly if it is found live there or written. */
  lemma {:induction false} CoveredHere(c: Scan, cur: nat)
    requires c.Ok() && cur < |c.code|
    ensures Covered(c.At(cur), cur) <==> c.At(cur).alive || WritesAt(c, cur)
  {
    hide Scan.At;
    PassShape(c, cur);
    var v := c.At(cur);
    if Covered(v, cur) && !v.alive {
      var i :| 0 <= i < |v.segments| && v.segments[i].start <= cur <= v.segments[i].end;
      assert v.segments[0].start <= v.segments[i].start;
      assert WriteAt(v.segments, cur);
    }
    if WritesAt(c, cur) {
      assert WriteAt(v.segments, cur);
    }
  }

  /** A plain step covers nothing behind it. */
  lemma {:induction false} StepCoversOnly(c: Scan, v: LifetimeVariable, cur: nat, o: nat, t: nat)
    requires c.Ok() && VariableOk(v, cur) && cur == o + 1 && o < |c.code| && c.reached[o] && o !in c.loops && t >= cur
    requires Covered(StepVariable(c.code, c.loops, c.s, v, o), t)
    ensures Covered(v, t)
  {
    var op := c.code[o];
    ConsFacts(Point(o, v.savedEnd, false), v.segments);
    ConsFacts(Point(o, v.savedEnd, true), v.segments);
    if op.IncSlot? && op.slot == c.s {
      var k := KillVariable(v, o);
      ConsFacts(Point(o, k.savedEnd, false), k.segments);
    }
    if v.alive {
      HeadCoversOnly(v, cur, o, t);
    }
  }

  /** A live variable whose first segment is made to start earlier. */
  lemma {:induction false} HeadCoversOnly(v: LifetimeVariable, cur: nat, o: nat, t: nat)
    requires VariableOk(v, cur) && v.alive && t >= cur
    ensures Covers(v.segments[0 := v.segments[0].(start := o)], t) ==> Covered(v, t)
    ensures Covers(v.segments[0 := v.segments[0].(start := o, write := true)], t) ==> Covered(v, t)
  {
    assert forall i :: 0 < i < |v.segments| ==> v.segments[0 := v.segments[0].(start := o)][i] == v.segments[i];
    assert forall i :: 0 < i < |v.segments| ==> v.segments[0 := v.segments[0].(start := o, write := true)][i] == v.segments[i];
  }

  lemma {:induction false} ExplainedLater(c: Scan, t: nat, cur: nat, o: nat)
    requires LoopsToAccess(c, t, cur) && o <= cur
    ensures LoopsToAccess(c, t, o)
  {
  }

  /** An operation at which the variable is found live. */
  lemma {:induction false} AliveExplained(c: Scan, cur: nat, o: nat)
    requires c.Ok() && cur == o + 1 && cur <= |c.code| && Explained(c, cur) && c.At(o).alive && !(c.reached[o] && o in c.loops)
    ensures LeadsToAccess(c, o) && !c.Kills(o)
  {
    AtStep(c, o, cur);
    var v := c.At(cur);
    if AccessedAt(c, o) {
      LeadsHere(c, o);
    } else if v.alive {
      LeadsNext(c, o, cur);
    } else if c.code[o].Switch? {
      PassShape(c, cur);
      var k := v.segments[0].start;
      assert WriteAt(v.segments, k);
      LeadsHere(c, k);
      LeadsByJump(c, o, k);
    } else {
      JumpExplained(c, cur, o);
    }
  }

  /** A jump to an offset where the variable is covered. */
  lemma {:induction false} JumpExplained(c: Scan, cur: nat, o: nat)
    requires c.Ok() && cur == o + 1 && cur <= |c.code| && Explained(c, cur) && !c.At(cur).alive
    requires c.reached[o] && IsJump(c.code[o]) && c.code[o].target > o && Covered(c.At(cur), c.code[o].target)
    ensures LeadsToAccess(c, o)
  {
    var t := c.code[o].target;
    if LeadsToAccess(c, t) {
      LeadsByJump(c, o, t);
    } else {
      var h :| h >= cur && ComesRound(c, h, t) && LeadsToAccess(c, h);
      EntersLoop(c, o, h, t);
      LeadsNext(c, o, cur);
    }
  }

  lemma {:induction false} StepExplained(c: Scan, cur: nat, o: nat)
    requires c.Ok() && cur == o + 1 && cur <= |c.code| && Explained(c, cur) && !(c.reached[o] && o in c.loops)
    ensures Explained(c, o)
  {
    AtStep(c, o, cur);
    if c.At(o).alive {
      AliveExplained(c, cur, o);
    }
    forall t: nat | t >= o && Covered(c.At(o), t)
      ensures LeadsToAccess(c, t) || LoopsToAccess(c, t, o)
    {
      if t == o {
        CoveredHere(c, o);
        if WritesAt(c, o) {
          LeadsHere(c, o);
        }
      } else {
        PassShape(c, cur);
        if c.reached[o] {
          StepCoversOnly(c, c.At(cur), cur, o, t);
        }
        if LoopsToAccess(c, t, cur) {
          ExplainedLater(c, t, cur, o);
        }
      }
    }
  }

  lemma {:induction false} NoWriteInGap(segs: seq<Lifetime>, i: nat, t: nat, x: nat, w: nat)
    requires Sorted(segs) && i < |segs| && segs[i].end < t <= w < x && (i + 1 < |segs| ==> x <= segs[i + 1].start)
    ensures !WriteAt(segs, w)
  {
    forall j | 0 <= j < |segs|
      ensures segs[j].start != w
    {
      if j <= i {
        assert segs[j].start <= segs[i].end;
      } else {
        assert segs[i + 1].start <= segs[j].start;
      }
    }
  }

  /** An offset that extending over the loop h covers comes round the loop. */
  lemma {:induction false} FilledRound(c: Scan, cur: nat, h: nat, v: LifetimeVariable, i: nat, t: nat)
    requires c.Ok() && h in c.loops && cur == h + 1 && cur <= |c.code| && v == c.At(cur) && v.alive && t >= cur
    requires i < |v.segments| && Filled(v.segments, c.loops[h], i, t)
    ensures ComesRound(c, h, t)
  {
    hide Scan.At;
    PassShape(c, cur);
    PassEnds(c, cur);
    var segs, b := v.segments, c.loops[h];
    var x := if i + 1 == |segs| || segs[i + 1].start >= b then b else segs[i].savedEnd;
    forall w | t <= w < x
      ensures !WritesAt(c, w)
    {
      NoWriteInGap(segs, i, t, x, w);
    }
    assert StraightTo(c, h, t, x);
  }

  lemma {:induction false} HeadExplained(c: Scan, cur: nat, h: nat)
    requires c.Ok() && h in c.loops && cur == h + 1 && cur <= |c.code| && c.reached[h] && Explained(c, cur)
    ensures Explained(c, h)
  {
    hide Scan.At;
    PassShape(c, cur);
    HeadStep(c, h, cur);
    var v := c.At(cur);
    if v.alive {
      LeadsNext(c, h, cur);
    }
    forall t: nat | t >= h && Covered(c.At(h), t)
      ensures LeadsToAccess(c, t) || LoopsToAccess(c, t, h)
    {
      if t == h {
        CoveredHere(c, h);
      } else if Covered(v, t) {
        if LoopsToAccess(c, t, cur) {
          ExplainedLater(c, t, cur, h);
        }
      } else {
        var i := HeadFills(c, cur, h, v, t);
        FilledRound(c, cur, h, v, i, t);
      }
    }
  }

  /** What extending a live variable over a loop covers is a gap that is filled. */
  lemma {:induction false} HeadFills(c: Scan, cur: nat, h: nat, v: LifetimeVariable, t: nat) returns (i: nat)
    requires VariableOk(v, cur) && h in c.loops && cur == h + 1 && t >= cur && !Covered(v, t)
    requires Covered(ExtendVariable(v, h, c.loops[h]), t)
    ensures v.alive && i < |v.segments| && Filled(v.segments, c.loops[h], i, t)
  {
    var r := v.segments[0 := v.segments[0].(start := h)];
    ReplaceHeadOk(v, cur, h, false);
    assert r == v.segments[0 := v.segments[0].(start := h, write := false)];
    HeadCoversOnly(v, cur, h, t);
    ExtendOk(r, c.loops[h]);
    var e := ExtendFrom(r, c.loops[h]);
    assert Covers(e, t);
    i := ExtendOnly(r, c.loops[h], t);
    assert i == 0 ==> t > v.segments[0].end;
  }

  lemma {:induction false} PassExplained(c: Scan, cur: nat)
    requires c.Ok() && cur <= |c.code|
    ensures Explained(c, cur)
    decreases |c.code| - cur
  {
    if cur < |c.code| {
      var next := cur + 1;
      PassExplained(c, next);
      if c.reached[cur] && cur in c.loops {
        HeadExplained(c, next, cur);
      } else {
        StepExplained(c, next, cur);
      }
    }
  }

  // ------------------------------------------------------------------ and covered if one does

  lemma {:induction false} WalkStart(c: Scan, p: seq<nat>)
    requires IsWalk(c, p)
    ensures p[0] < |c.code| && (|p| > 1 ==> p[0] + 1 <= |c.code|)
    decreases |p|
  {
    if |p| > 1 {
      WalkTail(c, p);
      WalkStart(c, p[1..]);
    }
  }

  /** Where a walk to an access starts, the variable is found live, or it is written there. */
  lemma {:induction false} WalkAlive(c: Scan, p: seq<nat>)
    requires c.Ok() && IsWalk(c, p)
    ensures p[0] < |c.code| && (c.At(p[0]).alive || c.Kills(p[0]))
    decreases |p|
  {
    WalkStart(c, p);
    var x := p[0];
    var next := x + 1;
    AtStep(c, x, next);
    if |p| > 1 {
      WalkTail(c, p);
      var q, y := p[1..], p[1];
      WalkAlive(c, q);
      if JumpsTo(c, x, y) {
        if !c.At(next).alive {
          JumpAlive(c, x, next, y);
        }
      }
    }
  }

  lemma {:induction false} JumpAlive(c: Scan, x: nat, next: nat, y: nat)
    requires c.Ok() && next == x + 1 && JumpsTo(c, x, y) && y < |c.code| && (c.At(y).alive || c.Kills(y)) && !c.At(next).alive
    requires !WritesAt(c, x)
    ensures c.At(x).alive
  {
    CoveredHere(c, y);
    StaysCovered(c, y, next, y);
    AtStep(c, x, next);
    assert |c.At(next).segments| > 0;
    assert x in c.loops ==> c.code[x].LoopHead?;
  }

  /** A gap that is not filled cannot come round the loop. */
  lemma {:induction false} RoundCovered(c: Scan, h: nat, t: nat, cur: nat)
    requires c.Ok() && ComesRound(c, h, t) && cur == h + 1 && cur <= |c.code| && c.At(cur).alive
    ensures Covered(c.At(h), t)
  {
    hide Scan.At;
    var v, b := c.At(cur), c.loops[h];
    PassShape(c, cur);
    HeadStep(c, h, cur);
    var i := HeadCovers(v, cur, h, b, t);
    if InGap(v.segments, i, t) && v.segments[i + 1].start < b {
      assert c.Bound(cur, b);
      PassBridged(c, cur, b);
      assert GapOk(c, v.segments[i], v.segments[i + 1], b);
      var x :| StraightTo(c, h, t, x);
      RemembersJump(c, h, t, v.segments[i], v.segments[i + 1], x);
    }
  }

  /** The segment before a gap in the loop remembers the jumps that come after t. */
  lemma {:induction false} RemembersJump(c: Scan, h: nat, t: nat, seg: Lifetime, next: Lifetime, x: nat)
    requires h in c.loops && StraightTo(c, h, t, x) && GapOk(c, seg, next, c.loops[h])
    requires seg.end < t < next.start < c.loops[h]
    ensures t <= x <= seg.savedEnd
  {
    assert WritesAt(c, next.start);
    assert c.Leaves(x);
  }

  /**
   Exactly which offsets the segments cover: those from which a walk leads to an
   access, and those in a loop that may come round to its head, if a walk leads to
   an access from there.
   */
  lemma {:induction false} CoveredExactly(c: Scan, t: nat, start: nat)
    requires c.Ok() && t < |c.code| && start == 0
    ensures Covered(c.At(start), t) <==> LeadsToAccess(c, t) || LoopsToAccess(c, t, start)
  {
    hide Scan.At, Covered;
    PassExplained(c, start);
    if p :| WalkFrom(c, p, t) {
      WalkAlive(c, p);
      CoveredHere(c, t);
      StaysCovered(c, t, start, t);
    }
    if h :| h >= start && ComesRound(c, h, t) && LeadsToAccess(c, h) {
      var cur := h + 1;
      HeadLeads(c, h, cur);
      RoundCovered(c, h, t, cur);
      StaysCovered(c, h, start, t);
    }
  }

  /** A walk that leads to an access from a loop head finds the variable live after it. */
  lemma {:induction false} HeadLeads(c: Scan, h: nat, cur: nat)
    requires c.Ok() && h in c.loops && cur == h + 1 && LeadsToAccess(c, h)
    ensures cur <= |c.code| && c.At(cur).alive
  {
    var p :| WalkFrom(c, p, h);
    WalkAlive(c, p);
    HeadStep(c, h, cur);
  }

  /** Outside loops the variable is covered exactly where a walk leads to an access. */
  lemma {:induction false} CoveredOutsideLoops(c: Scan, t: nat, start: nat)
    requires c.Ok() && t < |c.code| && start == 0 && forall h :: h in c.loops ==> !(h < t <= c.loops[h])
    ensures Covered(c.At(start), t) <==> LeadsToAccess(c, t)
  {
    CoveredExactly(c, t, start);
  }
}
