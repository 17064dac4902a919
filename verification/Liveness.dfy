/**
 Soundness of the lifetime segments, against liveness by the dataflow equations:
 exactly which live offsets the segments of a variable do not cover, and a
 condition on the script under which there are none.
 */
module Liveness {
  import opened Bytecode
  import opened Lifetimes
  import opened LifetimeSteps
  import opened LifetimeGaps

  // ------------------------------------------------------------------ dataflow liveness

  /** A path to a read of s along which s is not written. */
  ghost predicate LivePath(code: Script, p: seq<nat>, s: nat) {
    && |p| > 0
    && (forall i :: 0 <= i < |p| ==> p[i] < |code|)
    && (forall i :: 0 < i < |p| ==> Edge(code, p[i - 1], p[i]))
    && (forall i :: 0 <= i < |p| - 1 ==> !Writes(code[p[i]], s))
    && Reads(code[p[|p| - 1]], s)
  }

  /** s is live at t by the dataflow equations: some path reads it before writing it. */
  ghost predicate IsLive(code: Script, s: nat, t: nat) {
    exists p :: LivePath(code, p, s) && p[0] == t
  }

  ghost predicate LivePathFrom(code: Script, p: seq<nat>, s: nat, t: nat, cur: nat) {
    LivePath(code, p, s) && p[0] == t && forall i :: 0 <= i < |p| ==> cur <= p[i]
  }

  /** s is live at t along a path that stays at offsets from cur on. */
  ghost predicate LiveFrom(code: Script, s: nat, t: nat, cur: nat) {
    exists p :: LivePathFrom(code, p, s, t, cur)
  }

  lemma {:induction false} PathTail(code: Script, p: seq<nat>, s: nat, k: nat)
    requires LivePath(code, p, s) && k < |p|
    ensures LivePath(code, p[k..], s)
  {
  }

  lemma {:induction false} PathReached(c: Scan, p: seq<nat>, i: nat)
    requires c.Ok() && LivePath(c.code, p, c.s) && i < |p| && c.reached[p[0]]
    ensures c.reached[p[i]]
    decreases i
  {
    if i > 0 {
      PathReached(c, p, i - 1);
      assert Edge(c.code, p[i - 1], p[i]);
    }
  }

  /** The first element of a sequence below a bound. */
  lemma {:induction false} FirstBelow(p: seq<nat>, bound: nat) returns (j: nat)
    requires exists i :: 0 <= i < |p| && p[i] < bound
    ensures j < |p| && p[j] < bound && forall i :: 0 <= i < j ==> p[i] >= bound
  {
    j := 0;
    while p[j] >= bound
      invariant 0 <= j < |p| && forall i :: 0 <= i < j ==> p[i] >= bound
      decreases |p| - j
    {
      j := j + 1;
    }
  }

  /** A live path from later on never comes to an offset that no back edge enters. */
  lemma {:induction false} PathAvoids(c: Scan, p: seq<nat>, t: nat, o: nat, cur: nat)
    requires c.Ok() && o < t < |c.code| && c.reached[t] && cur == o + 1
    requires LivePathFrom(c.code, p, c.s, t, o) && (o < |c.code| && c.reached[o] ==> o !in c.loops)
    ensures LivePathFrom(c.code, p, c.s, t, cur)
  {
    forall i | 0 <= i < |p|
      ensures p[i] != o
    {
      PathReached(c, p, i);
      if i > 0 && p[i] == o {
        PathReached(c, p, i - 1);
        EntersFromAfter(c, p[i - 1], o);
      }
    }
  }

  /** A path that stays after a loop head and ends in its loop never leaves the loop. */
  lemma {:induction false} PathBelow(c: Scan, h: nat, q: seq<nat>)
    requires c.Ok() && h in c.loops && |q| > 0 && q[|q| - 1] <= c.loops[h]
    requires forall i :: 0 <= i < |q| ==> h < q[i] < |c.code| && c.reached[q[i]]
    requires forall i :: 0 < i < |q| ==> Edge(c.code, q[i - 1], q[i])
    ensures q[0] <= c.loops[h]
    decreases |q|
  {
    if |q| > 1 {
      var r := q[1..];
      forall i | 0 < i < |r|
        ensures Edge(c.code, r[i - 1], r[i])
      {
        assert Edge(c.code, q[i], q[i + 1]);
      }
      PathBelow(c, h, r);
      assert Edge(c.code, q[0], q[1]);
    }
  }

  // ------------------------------------------------------------------ stranded offsets

  /** No operation in [lo, hi) accesses the variable or leaves its straight line forward. */
  ghost predicate Quiet(c: Scan, lo: nat, hi: nat)
    requires |c.reached| == |c.code|
  {
    forall x: nat :: lo <= x < hi && x < |c.code| && c.reached[x] ==>
      !Reads(c.code[x], c.s) && !Writes(c.code[x], c.s) && !c.Leaves(x)
  }

  /** The variable is found live just after the loop head g. */
  ghost predicate AliveIn(c: Scan, g: nat)
    requires |c.reached| == |c.code| && g < |c.code|
  {
    c.At(g + 1).alive
  }

  /**
   From t on, nothing happens before the write at k, and the variable is found dead in
   all the loops that end in between.
   */
  ghost predicate Strands(c: Scan, t: nat, k: nat)
    requires |c.reached| == |c.code|
  {
    && t < k && c.Kills(k) && Quiet(c, t, k)
    && (forall g :: g in c.loops && g < t <= c.loops[g] < k ==> !AliveIn(c, g))
  }

  ghost predicate Stranded(c: Scan, t: nat)
    requires |c.reached| == |c.code|
  {
    exists k :: Strands(c, t, k)
  }

  /** A live path can leave such a straight line only around a loop that ends in it. */
  lemma {:induction false} LeavesLine(c: Scan, p: seq<nat>, t: nat, k: nat) returns (i: nat)
    requires c.Ok() && LivePath(c.code, p, c.s) && t <= p[0] < k && c.reached[p[0]]
    requires c.Kills(k) && Quiet(c, t, k)
    ensures 0 < i < |p| && p[i] in c.loops && p[i] < t <= c.loops[p[i]] < k
    decreases |p|
  {
    assert |p| > 1 && Edge(c.code, p[0], p[1]);
    if p[1] < t {
      i := 1;
      EntersFromAfter(c, p[0], p[1]);
    } else {
      assert p[1] != k;
      PathTail(c.code, p, c.s, 1);
      i := LeavesLine(c, p[1..], t, k);
      i := i + 1;
    }
  }

  // ------------------------------------------------------------------ what the pass covers

  /** What the segments cover once the offsets from cur on are processed. */
  ghost predicate Sound(c: Scan, cur: nat)
    requires |c.reached| == |c.code| && cur <= |c.code|
  {
    && (forall t: nat :: cur <= t < |c.code| && c.reached[t] && LiveFrom(c.code, c.s, t, cur) ==> Covered(c.At(cur), t) || Stranded(c, t))
    && (cur < |c.code| && c.reached[cur] && LiveFrom(c.code, c.s, cur, cur) ==> c.At(cur).alive)
  }

  /** Where the pass finds a variable alive, it is covered. */
  lemma {:induction false} AliveCovered(c: Scan, cur: nat)
    requires c.Ok() && cur <= |c.code| && c.At(cur).alive
    ensures Covered(c.At(cur), cur)
  {
    PassShape(c, cur);
  }

  /** If s is live at the target of a jump, then the pass sees it there: the target is not stranded. */
  lemma {:induction false} TargetSeen(c: Scan, o: nat, cur: nat, p: seq<nat>, t: nat)
    requires c.Ok() && cur == o + 1 && cur <= |c.code| && Sound(c, cur)
    requires c.reached[o] && IsJump(c.code[o]) && c.code[o].target == t > o
    requires LivePathFrom(c.code, p, c.s, t, cur)
    ensures c.At(cur).alive || Covered(c.At(cur), t)
  {
    assert JumpEdge(c.code, o, t);
    assert c.reached[t] by { assert Edge(c.code, o, t); }
    assert LiveFrom(c.code, c.s, t, cur);
    if k :| Strands(c, t, k) {
      var i := LeavesLine(c, p, t, k);
      EntersLoop(c, o, p[i], t);
      PathTail(c.code, p, c.s, i);
      assert LivePathFrom(c.code, p[i..], c.s, cur, cur);
      assert LiveFrom(c.code, c.s, cur, cur);
      PathReached(c, p, i);
    }
  }

  /** A jump from before a loop into its body comes from just before its head. */
  lemma {:induction false} EntersLoop(c: Scan, o: nat, g: nat, t: nat)
    requires c.Ok() && o < |c.code| && c.reached[o] && JumpEdge(c.code, o, t)
    requires g in c.loops && o < g < t <= c.loops[g]
    ensures o + 1 == g
  {
  }

  /** A dead variable that is live somewhere has a later segment. */
  lemma {:induction false} HasSegments(c: Scan, cur: nat, t: nat)
    requires c.Ok() && cur <= t && cur <= |c.code| && (Covered(c.At(cur), t) || Stranded(c, t))
    ensures |c.At(cur).segments| > 0
  {
    if k :| Strands(c, t, k) {
      PassShape(c, cur);
      assert WriteAt(c.At(cur).segments, k);
    }
  }

  /** If the operation itself keeps s live, then s is found live before it. */
  lemma {:induction false} StepAlive(c: Scan, cur: nat, o: nat, p: seq<nat>, v: LifetimeVariable)
    requires c.Ok() && cur == o + 1 && cur <= |c.code| && Sound(c, cur) && v == c.At(cur)
    requires c.reached[o] && o !in c.loops && LivePathFrom(c.code, p, c.s, o, o)
    ensures StepVariable(c.code, c.loops, c.s, v, o).alive
  {
    if |p| > 1 {
      var t := p[1];
      assert Edge(c.code, o, t);
      if t == o {
        EntersFromAfter(c, o, o);
      }
      PathTail(c.code, p, c.s, 1);
      var q := p[1..];
      assert LivePathFrom(c.code, q, c.s, t, o);
      PathAvoids(c, q, t, o, cur);
      assert LiveFrom(c.code, c.s, t, cur);
      if IsJump(c.code[o]) && t == c.code[o].target {
        TargetSeen(c, o, cur, q, t);
      } else if c.code[o].Switch? {
        HasSegments(c, cur, t);
      }
    }
  }

  /** s is live at a loop head only if it is live at the next offset without another iteration. */
  lemma {:induction false} HeadAlive(c: Scan, cur: nat, h: nat, p: seq<nat>)
    requires c.Ok() && h in c.loops && cur == h + 1 && cur <= |c.code| && Sound(c, cur)
    requires c.reached[h] && LivePathFrom(c.code, p, c.s, h, h)
    ensures c.At(cur).alive
    decreases |p|
  {
    if i :| 0 < i < |p| && p[i] == h {
      PathTail(c.code, p, c.s, i);
      assert forall j :: 0 <= j < |p[i..]| ==> p[i..][j] == p[i + j];
      HeadAlive(c, cur, h, p[i..]);
    } else {
      assert |p| > 1 && Edge(c.code, h, p[1]) && p[1] == cur;
      PathTail(c.code, p, c.s, 1);
      assert forall j :: 0 <= j < |p[1..]| ==> p[1..][j] == p[1 + j];
      assert LivePathFrom(c.code, p[1..], c.s, cur, cur);
      assert LiveFrom(c.code, c.s, cur, cur);
      assert c.reached[cur];
    }
  }

  // ------------------------------------------------------------------ loop heads

  /** The last segment that ends before t. */
  lemma {:induction false} SegmentBefore(segs: seq<Lifetime>, t: nat, n: nat) returns (i: nat)
    requires Sorted(segs) && 0 < n <= |segs| && segs[0].end < t
    requires n < |segs| ==> segs[n].end >= t
    ensures i < n && segs[i].end < t && (i + 1 < |segs| ==> segs[i + 1].end >= t)
    decreases n
  {
    if segs[n - 1].end < t {
      i := n - 1;
    } else {
      i := SegmentBefore(segs, t, n - 1);
    }
  }

  /** Offset t lies in the gap after segment i, after the jumps that the segment remembers. */
  ghost predicate InGap(segs: seq<Lifetime>, i: nat, t: nat) {
    && i + 1 < |segs| && segs[i].end < t < segs[i + 1].start
    && segs[i].savedEnd < t && segs[0].end < t
  }

  /** Extending a live variable over a loop covers the loop but for the gaps before a write in it. */
  lemma {:induction false} HeadCovers(v: LifetimeVariable, cur: nat, h: nat, b: nat, t: nat) returns (i: nat)
    requires VariableOk(v, cur) && v.alive && cur == h + 1 && h < t <= b
    ensures Covered(ExtendVariable(v, h, b), t) || (InGap(v.segments, i, t) && v.segments[i + 1].start < b)
  {
    i := 0;
    var segs := v.segments;
    ExtendVariableOk(v, cur, h, b);
    if t > segs[0].end && !Covers(segs, t) {
      i := SegmentBefore(segs, t, |segs|);
      if Filled(segs, b, i, t) {
        FillsLoop(v, cur, h, b, t, i);
      }
    }
  }

  lemma {:induction false} FillsLoop(v: LifetimeVariable, cur: nat, h: nat, b: nat, t: nat, i: nat)
    requires VariableOk(v, cur) && v.alive && cur == h + 1 && h < t <= b && i < |v.segments| && v.segments[i].end < t
    requires Filled(v.segments, b, i, t)
    ensures Covered(ExtendVariable(v, h, b), t)
  {
    var r := v.segments[0 := v.segments[0].(start := h)];
    ReplaceHeadOk(v, cur, h, false);
    assert r == v.segments[0 := v.segments[0].(start := h, write := false)];
    ExtendFills(r, b, i, t);
  }

  /** In such a gap nothing happens before the write that ends it. */
  lemma {:induction false} GapQuiet(c: Scan, cur: nat, b: nat, v: LifetimeVariable, i: nat, t: nat)
    requires c.Ok() && cur <= |c.code| && Sound(c, cur) && v == c.At(cur) && v.alive
    requires c.Bound(cur, b) && cur <= t && InGap(v.segments, i, t) && v.segments[i + 1].start < b
    ensures c.Kills(v.segments[i + 1].start) && Quiet(c, t, v.segments[i + 1].start)
  {
    PassShape(c, cur);
    PassBridged(c, cur, b);
    var segs := v.segments;
    var k := segs[i + 1].start;
    assert GapOk(c, segs[i], segs[i + 1], b);
    forall x: nat | t <= x < k && x < |c.code| && c.reached[x]
      ensures !Reads(c.code[x], c.s) && !Writes(c.code[x], c.s) && !c.Leaves(x)
    {
      assert !WriteAt(segs, x);
      if Reads(c.code[x], c.s) {
        assert LivePathFrom(c.code, [x], c.s, x, cur);
        assert LiveFrom(c.code, c.s, x, cur);
      }
    }
  }

  lemma {:induction false} GapKills(c: Scan, cur: nat, v: LifetimeVariable, i: nat, t: nat)
    requires c.Ok() && cur <= |c.code| && v == c.At(cur) && InGap(v.segments, i, t)
    ensures c.Kills(v.segments[i + 1].start)
  {
    PassBridged(c, cur, 0);
    assert GapOk(c, v.segments[i], v.segments[i + 1], 0);
  }

  /** Extending over a loop with no write between t and its end covers t. */
  lemma {:induction false} LoopCovers(c: Scan, g: nat, next: nat, t: nat)
    requires c.Ok() && g in c.loops && next == g + 1 <= |c.code| && c.At(next).alive
    requires g < t <= c.loops[g] && forall x: nat :: t <= x < c.loops[g] ==> !c.Kills(x)
    ensures Covered(c.At(g), t)
  {
    hide Scan.At, StepVariable, ExtendVariable, VariableOk;
    PassShape(c, next);
    HeadStep(c, g, next);
    var w := c.At(next);
    var j := HeadCovers(w, next, g, c.loops[g], t);
    if InGap(w.segments, j, t) {
      GapKills(c, next, w, j, t);
    }
  }

  /** A loop that ends in the gap was extended over when its head was passed, so the variable was dead there. */
  lemma {:induction false} GapLoops(c: Scan, cur: nat, h: nat, v: LifetimeVariable, t: nat, k: nat, g: nat)
    requires c.Ok() && h in c.loops && cur == h + 1 && v == c.At(cur) && cur <= |c.code|
    requires k < c.loops[h] && Quiet(c, t, k) && !Covered(v, t) && h < t
    requires g in c.loops && g < t <= c.loops[g] < k
    ensures !AliveIn(c, g)
  {
    if g <= h {
      if g < h {
        LoopsNest(c, g, h);
      }
    } else if AliveIn(c, g) {
      LoopCovers(c, g, g + 1, t);
      StaysCovered(c, g, cur, t);
    }
  }

  /** At a loop head: what is live around the back edge is covered or stranded. */
  lemma {:induction false} HeadSound(c: Scan, cur: nat, h: nat, v: LifetimeVariable, t: nat)
    requires c.Ok() && h in c.loops && cur == h + 1 && cur <= |c.code| && Sound(c, cur)
    requires v == c.At(cur) && v.alive && h < t <= c.loops[h]
    ensures Covered(ExtendVariable(v, h, c.loops[h]), t) || Stranded(c, t)
  {
    var b := c.loops[h];
    PassShape(c, cur);
    var i := HeadCovers(v, cur, h, b, t);
    if !Covered(ExtendVariable(v, h, b), t) {
      var k := v.segments[i + 1].start;
      assert c.Bound(cur, b);
      GapQuiet(c, cur, b, v, i, t);
      ExtendVariableOk(v, cur, h, b);
      forall g | g in c.loops && g < t <= c.loops[g] < k
        ensures !AliveIn(c, g)
      {
        GapLoops(c, cur, h, v, t, k, g);
      }
      assert Strands(c, t, k);
    }
  }

  /** The part of a path before it first comes to a loop head lies in the loop. */
  lemma {:induction false} BeforeHead(c: Scan, h: nat, t: nat, p: seq<nat>, k: nat)
    requires c.Ok() && h < t < |c.code| && c.reached[t] && h in c.loops
    requires LivePathFrom(c.code, p, c.s, t, h)
    requires 0 < k < |p| && p[k] == h && forall i :: 0 <= i < k ==> p[i] > h
    ensures t <= c.loops[h]
  {
    var q := p[..k];
    forall i | 0 <= i < k
      ensures h < q[i] < |c.code| && c.reached[q[i]]
    {
      PathReached(c, p, i);
    }
    PathReached(c, p, k - 1);
    EntersFromAfter(c, p[k - 1], h);
    PathBelow(c, h, q);
  }

  lemma {:induction false} HeadPath(c: Scan, cur: nat, h: nat, v: LifetimeVariable, t: nat, p: seq<nat>)
    requires c.Ok() && h in c.loops && cur == h + 1 && cur <= |c.code| && Sound(c, cur) && v == c.At(cur)
    requires c.reached[h] && h < t < |c.code| && c.reached[t] && LivePathFrom(c.code, p, c.s, t, h)
    ensures Covered(ExtendVariable(v, h, c.loops[h]), t) || Stranded(c, t)
  {
    if exists i :: 0 <= i < |p| && p[i] < cur {
      var k := FirstBelow(p, cur);
      BeforeHead(c, h, t, p, k);
      PathTail(c.code, p, c.s, k);
      assert forall j :: 0 <= j < |p[k..]| ==> p[k..][j] == p[k + j];
      assert LivePathFrom(c.code, p[k..], c.s, h, h);
      HeadAlive(c, cur, h, p[k..]);
      HeadSound(c, cur, h, v, t);
    } else {
      assert LivePathFrom(c.code, p, c.s, t, cur);
      assert LiveFrom(c.code, c.s, t, cur);
      if Covered(v, t) {
        PassShape(c, cur);
        ExtendVariableOk(v, cur, h, c.loops[h]);
      }
    }
  }

  // ------------------------------------------------------------------ one step

  /** Passing a loop head keeps soundness. */
  lemma {:induction false} StepHead(c: Scan, cur: nat, h: nat)
    requires c.Ok() && h in c.loops && cur == h + 1 && cur <= |c.code| && c.reached[h] && Sound(c, cur)
    ensures Sound(c, h)
  {
    var v := c.At(cur);
    AtStep(c, h, cur);
    forall p | LivePathFrom(c.code, p, c.s, h, h)
      ensures c.At(h).alive
    {
      HeadAlive(c, cur, h, p);
    }
    forall t: nat | h <= t < |c.code| && c.reached[t] && LiveFrom(c.code, c.s, t, h)
      ensures Covered(c.At(h), t) || Stranded(c, t)
    {
      if t > h {
        var p :| LivePathFrom(c.code, p, c.s, t, h);
        HeadPath(c, cur, h, v, t, p);
      } else {
        AliveCovered(c, h);
      }
    }
  }

  /** Passing another offset keeps soundness. */
  lemma {:induction false} StepPlain(c: Scan, cur: nat, o: nat)
    requires c.Ok() && cur == o + 1 && cur <= |c.code| && Sound(c, cur) && !(c.reached[o] && o in c.loops)
    ensures Sound(c, o)
  {
    AtStep(c, o, cur);
    forall p | c.reached[o] && LivePathFrom(c.code, p, c.s, o, o)
      ensures c.At(o).alive
    {
      StepAlive(c, cur, o, p, c.At(cur));
    }
    forall t: nat | o <= t < |c.code| && c.reached[t] && LiveFrom(c.code, c.s, t, o)
      ensures Covered(c.At(o), t) || Stranded(c, t)
    {
      if t > o {
        var p :| LivePathFrom(c.code, p, c.s, t, o);
        PathAvoids(c, p, t, o, cur);
        assert LiveFrom(c.code, c.s, t, cur);
        if Covered(c.At(cur), t) {
          StaysCovered(c, cur, o, t);
        }
      } else {
        AliveCovered(c, o);
      }
    }
  }

  lemma {:induction false} PassSound(c: Scan, cur: nat)
    requires c.Ok() && cur <= |c.code|
    ensures Sound(c, cur)
    decreases |c.code| - cur
  {
    if cur < |c.code| {
      var next := cur + 1;
      PassSound(c, next);
      if c.reached[cur] && cur in c.loops {
        StepHead(c, next, cur);
      } else {
        StepPlain(c, next, cur);
      }
    }
  }
}
