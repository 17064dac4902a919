/**
 Which live offsets the segments miss: exactly the stranded ones; and a
 condition on the jumps and writes of a script under which there are none.
 */
module LivenessLimits {
  import opened Bytecode
  import opened Lifetimes
  import opened LifetimeSteps
  import opened LifetimeGaps
  import opened Liveness

  // ------------------------------------------------------------------ stranded offsets are not covered

  /** No segment that starts before k reaches t, and one starts at k at the latest. */
  ghost predicate HoleBetween(segs: seq<Lifetime>, t: nat, k: nat) {
    && |segs| > 0 && segs[0].start <= k
    && forall i :: 0 <= i < |segs| && segs[i].start < k ==>
         segs[i].end < t && segs[i].savedEnd < t && i + 1 < |segs| && segs[i + 1].start <= k
  }

  ghost predicate Hole(v: LifetimeVariable, t: nat, k: nat) {
    && HoleBetween(v.segments, t, k)
    && (if v.alive then v.segments[0].start < k else v.savedEnd == 0 || v.savedEnd < t)
  }

  lemma {:induction false} HoleUncovered(v: LifetimeVariable, t: nat, k: nat)
    requires Hole(v, t, k) && t < k
    ensures !Covered(v, t)
  {
  }

  lemma {:induction false} ConsHole(seg: Lifetime, rest: seq<Lifetime>, t: nat, k: nat)
    requires HoleBetween(rest, t, k) && seg.start < k && seg.end < t && seg.savedEnd < t
    ensures HoleBetween([seg] + rest, t, k)
  {
    var r := [seg] + rest;
    forall i | 0 <= i < |r| && r[i].start < k
      ensures r[i].end < t && r[i].savedEnd < t && i + 1 < |r| && r[i + 1].start <= k
    {
      if i > 0 {
        assert rest[i - 1].start < k;
        assert r[i + 1] == rest[i - 1 + 1];
      }
    }
  }

  lemma {:induction false} RestHole(segs: seq<Lifetime>, t: nat, k: nat)
    requires HoleBetween(segs, t, k) && segs[0].start < k
    ensures |segs| > 1 && HoleBetween(segs[1..], t, k)
  {
    forall i | 0 <= i < |segs[1..]| && segs[1..][i].start < k
      ensures segs[1..][i].end < t && segs[1..][i].savedEnd < t && i + 1 < |segs[1..]| && segs[1..][i + 1].start <= k
    {
      assert segs[i + 1].start < k;
      assert segs[1..][i + 1] == segs[i + 1 + 1];
    }
  }

  /** A list that starts at k holds nothing before it. */
  lemma {:induction false} FromHere(segs: seq<Lifetime>, t: nat, k: nat)
    requires SegmentsOk(segs) && |segs| > 0 && segs[0].start == k
    ensures HoleBetween(segs, t, k)
  {
    assert forall i :: 0 < i < |segs| ==> segs[0].end <= segs[i].start;
  }

  lemma {:induction false} TailHole(seg: Lifetime, tail: Lifetime, rest: seq<Lifetime>, t: nat, k: nat)
    requires HoleBetween(rest, t, k) && seg.start < k && seg.end < t < k
    requires tail.start == seg.end && tail.end < t && tail.savedEnd < t
    ensures HoleBetween([seg.(savedEnd := 0), tail] + rest, t, k)
  {
    ConsHole(tail, rest, t, k);
    ConsHole(seg.(savedEnd := 0), [tail] + rest, t, k);
    assert [seg.(savedEnd := 0)] + ([tail] + rest) == [seg.(savedEnd := 0), tail] + rest;
  }

  /** Extending over a loop that ends before t or after k keeps the hole. */
  lemma {:induction false} ExtendHole(segs: seq<Lifetime>, end: nat, t: nat, k: nat)
    requires SegmentsOk(segs) && HoleBetween(segs, t, k) && t < k && (end < t || end > k)
    ensures HoleBetween(ExtendFrom(segs, end), t, k)
    decreases |segs|
  {
    if segs[0].start == k {
      ExtendOk(segs, end);
      FromHere(ExtendFrom(segs, end), t, k);
    } else if segs[0].start < end {
      var seg, rest := segs[0], ExtendFrom(segs[1..], end);
      RestHole(segs, t, k);
      RestOk(segs);
      ExtendHole(segs[1..], end, t, k);
      var to := if segs[1].start >= end then end else seg.savedEnd;
      if to > seg.end {
        TailHole(seg, Tail(seg, to, end), rest, t, k);
      } else {
        ConsHole(seg, rest, t, k);
      }
    }
  }

  lemma {:induction false} ReviveHole(v: LifetimeVariable, o: nat, t: nat, k: nat)
    requires Hole(v, t, k) && !v.alive && o < t < k
    ensures Hole(Revive(v, o), t, k)
  {
    ConsHole(Point(o, v.savedEnd, false), v.segments, t, k);
  }

  lemma {:induction false} StartHole(segs: seq<Lifetime>, seg: Lifetime, t: nat, k: nat)
    requires HoleBetween(segs, t, k) && segs[0].start < k
    requires seg.end == segs[0].end && seg.savedEnd == segs[0].savedEnd && seg.start < k
    ensures HoleBetween(segs[0 := seg], t, k)
  {
    RestHole(segs, t, k);
    ConsHole(seg, segs[1..], t, k);
    assert segs[0 := seg] == [seg] + segs[1..];
  }

  lemma {:induction false} AddHole(v: LifetimeVariable, o: nat, t: nat, k: nat)
    requires Hole(v, t, k) && o < t < k
    ensures Hole(AddVariable(v, o), t, k)
  {
    if v.alive {
      StartHole(v.segments, v.segments[0].(start := o), t, k);
    } else {
      ReviveHole(v, o, t, k);
    }
  }

  lemma {:induction false} KillHole(v: LifetimeVariable, o: nat, t: nat, k: nat)
    requires Hole(v, t, k) && o < t < k
    ensures Hole(KillVariable(v, o), t, k)
  {
    if v.alive {
      StartHole(v.segments, v.segments[0].(start := o, write := true), t, k);
    } else {
      ConsHole(Point(o, v.savedEnd, true), v.segments, t, k);
    }
  }

  lemma {:induction false} OpHole(v: LifetimeVariable, op: Op, s: nat, o: nat, t: nat, k: nat)
    requires Hole(v, t, k) && o < t < k
    ensures Hole(OpVariable(v, op, s, o), t, k)
  {
    if op.GetSlot? && op.slot == s {
      AddHole(v, o, t, k);
    } else if op.SetSlot? && op.slot == s {
      KillHole(v, o, t, k);
    } else if op.IncSlot? && op.slot == s {
      KillHole(v, o, t, k);
      AddHole(KillVariable(v, o), o, t, k);
    } else if op.Switch? && !v.alive {
      ReviveHole(v, o, t, k);
    }
  }

  lemma {:induction false} StepHole(c: Scan, v: LifetimeVariable, cur: nat, o: nat, t: nat, k: nat)
    requires c.Ok() && VariableOk(v, cur) && cur == o + 1 && o < |c.code| && c.reached[o]
    requires Hole(v, t, k) && o < t < k && (o in c.loops && v.alive ==> c.loops[o] < t || c.loops[o] > k)
    ensures Hole(StepVariable(c.code, c.loops, c.s, v, o), t, k)
  {
    if o in c.loops {
      if v.alive {
        var r := v.segments[0 := v.segments[0].(start := o)];
        ReplaceHeadOk(v, cur, o, false);
        assert r == v.segments[0 := v.segments[0].(start := o, write := false)];
        StartHole(v.segments, v.segments[0].(start := o), t, k);
        ExtendHole(r, c.loops[o], t, k);
        ExtendOk(r, c.loops[o]);
      }
    } else if !IsJump(c.code[o]) {
      OpHole(v, c.code[o], c.s, o, t, k);
    } else if !v.alive && c.code[o].target >= o {
      ReviveHole(v, o, t, k);
    }
  }

  /** Between t and the write at k the pass leaves the variable as the write did. */
  lemma {:induction false} LineStill(c: Scan, t: nat, k: nat, cur: nat, start: nat)
    requires c.Ok() && c.Kills(k) && Quiet(c, t, k) && t <= cur <= k && start == k + 1
    ensures c.At(cur) == KillVariable(c.At(start), k)
    decreases k - cur
  {
    var next := cur + 1;
    AtStep(c, cur, next);
    if cur < k {
      LineStill(c, t, k, next, start);
      if c.reached[cur] && IsJump(c.code[cur]) && c.code[cur].target == cur {
        assert BackEdge(c.code, cur, cur);
      }
    }
  }

  /** A write starts the hole before it. */
  lemma {:induction false} KillStarts(v: LifetimeVariable, cur: nat, t: nat, k: nat)
    requires VariableOk(v, cur) && cur == k + 1 && t < k
    ensures Hole(KillVariable(v, k), t, k)
  {
    KillOk(v, cur, k);
    FromHere(KillVariable(v, k).segments, t, k);
  }

  lemma {:induction false} PassHole(c: Scan, t: nat, k: nat, cur: nat)
    requires c.Ok() && Strands(c, t, k) && cur <= t
    ensures Hole(c.At(cur), t, k)
    decreases t - cur
  {
    if cur == t {
      var start := k + 1;
      PassShape(c, start);
      LineStill(c, t, k, cur, start);
      KillStarts(c.At(start), start, t, k);
    } else {
      var next := cur + 1;
      PassHole(c, t, k, next);
      HoleStep(c, t, k, next, cur);
    }
  }

  lemma {:induction false} HoleStep(c: Scan, t: nat, k: nat, cur: nat, o: nat)
    requires c.Ok() && Strands(c, t, k) && cur == o + 1 && o < t && Hole(c.At(cur), t, k)
    ensures Hole(c.At(o), t, k)
  {
    AtStep(c, o, cur);
    if c.reached[o] {
      PassShape(c, cur);
      if o in c.loops && c.At(cur).alive {
        assert AliveIn(c, o);
      }
      StepHole(c, c.At(cur), cur, o, t, k);
    }
  }

  /** Exactness: among the offsets where a variable is live, its segments cover all but the stranded ones. */
  lemma {:induction false} CoveredUnlessStranded(c: Scan, t: nat, start: nat)
    requires c.Ok() && t < |c.code| && c.reached[t] && IsLive(c.code, c.s, t) && start == 0
    ensures Covered(c.At(start), t) <==> !Stranded(c, t)
  {
    PassSound(c, start);
    var p :| LivePath(c.code, p, c.s) && p[0] == t;
    assert LivePathFrom(c.code, p, c.s, t, start);
    assert LiveFrom(c.code, c.s, t, start);
    if k :| Strands(c, t, k) {
      PassHole(c, t, k, start);
      HoleUncovered(c.At(start), t, k);
    }
  }

  // ------------------------------------------------------------------ a condition on the script

  /**
   The jump from y, in a loop g inside another loop h, goes to z after the end of
   loop g, still in loop h, and passes over the write at w.
   */
  ghost predicate JumpsOver(c: Scan, h: nat, g: nat, y: nat, z: nat, w: nat) {
    && h in c.loops && g in c.loops && h < g && c.loops[g] < c.loops[h]
    && y < |c.code| && y < |c.reached| && c.reached[y] && g < y < c.loops[g]
    && z in JumpTargets(c.code[y]) && c.loops[g] < w < z <= c.loops[h] && c.Kills(w)
  }

  ghost predicate NoJumpOverWrite(c: Scan) {
    forall h, g, y, z, w :: !JumpsOver(c, h, g, y, z, w)
  }

  /** The first element of a sequence above a bound. */
  lemma {:induction false} FirstAbove(p: seq<nat>, n: nat, bound: nat) returns (j: nat)
    requires n < |p| && p[n] > bound && p[0] <= bound
    ensures 0 < j <= n && p[j] > bound && p[j - 1] <= bound
  {
    j := 1;
    while p[j] <= bound
      invariant 0 < j <= n && p[j - 1] <= bound
      decreases n - j
    {
      j := j + 1;
    }
  }

  /** A path in the loop of g comes to offsets after the write at k by a jump over it from within the loop. */
  lemma {:induction false} CrossingJump(c: Scan, t: nat, k: nat, g: nat, p: seq<nat>, n: nat) returns (i: nat)
    requires c.Ok() && c.Kills(k) && Quiet(c, t, k) && g in c.loops && g < t < k
    requires LivePath(c.code, p, c.s) && p[0] == g && c.reached[g]
    requires n < |p| - 1 && (forall i :: 0 <= i <= n ==> p[i] >= g) && p[n] > k
    ensures 0 < i <= n && p[i - 1] < t && c.reached[p[i - 1]] && g < p[i - 1] && p[i] > k
    ensures p[i] in JumpTargets(c.code[p[i - 1]])
  {
    i := FirstAbove(p, n, k);
    var y, z := p[i - 1], p[i];
    assert Edge(c.code, y, z) && !Writes(c.code[y], c.s);
    PathReached(c, p, i - 1);
    assert y < k && JumpEdge(c.code, y, z);
    assert c.Leaves(y);
  }

  /** A part of a path that stays after the head of a loop and ends in it begins in it. */
  lemma {:induction false} PartBelow(c: Scan, h: nat, p: seq<nat>, i: nat, j: nat)
    requires c.Ok() && h in c.loops && LivePath(c.code, p, c.s) && c.reached[p[0]] && i < j < |p|
    requires (forall n :: i <= n < j ==> p[n] > h) && p[j - 1] <= c.loops[h]
    ensures p[i] <= c.loops[h]
  {
    var q := p[i..j];
    forall n | 0 <= n < |q|
      ensures h < q[n] < |c.code| && c.reached[q[n]]
    {
      PathReached(c, p, i + n);
    }
    forall n | 0 < n < |q|
      ensures Edge(c.code, q[n - 1], q[n])
    {
      assert Edge(c.code, p[i + n - 1], p[i + n]);
    }
    PathBelow(c, h, q);
  }

  /** A path from the head of loop g that first goes below it from after the write at k jumps over that write. */
  lemma {:induction false} CrossesWrite(c: Scan, t: nat, k: nat, g: nat, p: seq<nat>, j: nat)
    requires c.Ok() && c.Kills(k) && Quiet(c, t, k)
    requires g in c.loops && g < t <= c.loops[g] < k
    requires LivePath(c.code, p, c.s) && p[0] == g && c.reached[g]
    requires 0 < j < |p| && p[j] < g && (forall i :: 0 <= i < j ==> p[i] >= g) && p[j - 1] > k
    requires p[j] in c.loops && c.loops[p[j]] == p[j - 1]
    ensures !NoJumpOverWrite(c)
  {
    var i := CrossingJump(c, t, k, g, p, j - 1);
    PartBelow(c, p[j], p, i, j);
    assert JumpsOver(c, p[j], g, p[i - 1], p[i], k);
  }

  /** Where the variable is dead after the head of loop g, every live path from the head goes below it. */
  lemma {:induction false} GoesBelow(c: Scan, g: nat, next: nat, p: seq<nat>) returns (j: nat)
    requires c.Ok() && g in c.loops && next == g + 1 <= |c.code| && !c.At(next).alive
    requires LivePath(c.code, p, c.s) && p[0] == g && c.reached[g]
    ensures 0 < j < |p| && p[j] < g && (forall i :: 0 <= i < j ==> p[i] >= g)
    ensures p[j] in c.loops && c.loops[p[j]] == p[j - 1]
  {
    if forall i :: 0 <= i < |p| ==> p[i] >= g {
      PassSound(c, next);
      assert LivePathFrom(c.code, p, c.s, g, g);
      HeadAlive(c, next, g, p);
    }
    j := FirstBelow(p, g);
    PathReached(c, p, j - 1);
    EntersFromAfter(c, p[j - 1], p[j]);
  }

  /** So a live path cannot get out of the loops that end before the write. */
  lemma {:induction false} NoWayOut(c: Scan, t: nat, k: nat, g: nat, p: seq<nat>)
    requires c.Ok() && NoJumpOverWrite(c) && Strands(c, t, k)
    requires g in c.loops && g < t <= c.loops[g] < k
    requires LivePath(c.code, p, c.s) && p[0] == g && c.reached[g]
    ensures false
    decreases g
  {
    assert !AliveIn(c, g);
    var j := GoesBelow(c, g, g + 1, p);
    var h, b := p[j], p[j - 1];
    LoopsNest(c, h, g);
    if b > k {
      CrossesWrite(c, t, k, g, p, j);
    } else {
      assert JumpEdge(c.code, b, h);
      PathTail(c.code, p, c.s, j);
      PathReached(c, p, j);
      NoWayOut(c, t, k, h, p[j..]);
    }
  }

  /** If no jump out of an inner loop passes over a write in the outer one, no live offset is stranded. */
  lemma {:induction false} NotStranded(c: Scan, t: nat)
    requires c.Ok() && NoJumpOverWrite(c) && t < |c.code| && c.reached[t] && IsLive(c.code, c.s, t)
    ensures !Stranded(c, t)
  {
    var p :| LivePath(c.code, p, c.s) && p[0] == t;
    if k :| Strands(c, t, k) {
      var i := LeavesLine(c, p, t, k);
      PathTail(c.code, p, c.s, i);
      PathReached(c, p, i);
      NoWayOut(c, t, k, p[i], p[i..]);
    }
  }

  /** Then the segments cover the variable wherever it is live. */
  lemma {:induction false} LiveIsCovered(c: Scan, t: nat, start: nat)
    requires c.Ok() && NoJumpOverWrite(c) && start == 0
    requires t < |c.code| && c.reached[t] && IsLive(c.code, c.s, t)
    ensures Covered(c.At(start), t)
  {
    NotStranded(c, t);
    CoveredUnlessStranded(c, t, start);
  }
}
