/**
 A script whose variable is live at an offset that its lifetime does not cover:

   outer: do { use(x); do { if (a) continue outer; } while (b); x = c; } while (d);
 */
module NestedLoops {
  import opened Bytecode
  import opened BytecodeSweep
  import opened Lifetimes
  import opened LifetimeSteps
  import opened LifetimeGaps
  import opened Liveness
  import opened LivenessLimits
  import opened ScriptAnalysis

  /** The inner loop, from 4 to 8, is left by a jump over the write at 10; the outer one, from 1 to 13, starts with a read. */
  ghost function Nested(): Script {
    [Other(0, 0), LoopHead, GetSlot(2), Other(1, 0), LoopHead, Other(0, 1), CondJump(12, 1, 0), Other(0, 1),
     CondJump(4, 1, 0), Other(0, 1), SetSlot(2), Other(1, 0), Other(0, 1), CondJump(1, 1, 0), Return(0)]
  }

  /** The same, operation by operation. */
  ghost predicate IsNested(code: Script) {
    && |code| == 15 && code[0] == Other(0, 0) && code[1] == LoopHead && code[2] == GetSlot(2) && code[3] == Other(1, 0)
    && code[4] == LoopHead && code[5] == Other(0, 1) && code[6] == CondJump(12, 1, 0) && code[7] == Other(0, 1)
    && code[8] == CondJump(4, 1, 0) && code[9] == Other(0, 1) && code[10] == SetSlot(2) && code[11] == Other(1, 0)
    && code[12] == Other(0, 1) && code[13] == CondJump(1, 1, 0) && code[14] == Return(0)
  }

  ghost function NestedTable(): map<nat, nat> {
    map[1 := 13, 4 := 8]
  }

  function Depth(o: nat): nat {
    if o == 3 || o == 6 || o == 8 || o == 10 || o == 11 || o == 13 then 1 else 0
  }

  /** The targets of jumps, and the operations after them. */
  predicate Target(o: nat) {
    o == 1 || o == 4 || o == 7 || o == 9 || o == 12 || o == 14
  }

  ghost function NestedEntries(): (r: seq<Entry>)
    ensures |r| == 15 && forall o :: 0 <= o < 15 ==> r[o] == Entry(Depth(o), true, Target(o), false, false)
  {
    seq(15, o requires 0 <= o < 15 => Entry(Depth(o), true, Target(o), false, false))
  }

  ghost function AllReached(): (r: seq<bool>)
    ensures |r| == 15 && forall o :: 0 <= o < 15 ==> r[o]
  {
    seq(15, o => true)
  }

  /** Falling through all operations arrives at each with its depth. */
  lemma {:induction false} FallsDown(code: Script, o: nat)
    requires IsNested(code) && o < 15
    ensures Arrives(code, o, Depth(o))
  {
    hide Arrives;
    if o == 0 {
      ArrivesStart(code);
    } else {
      var before := o - 1;
      FallsDown(code, before);
      assert Moves(code, before, Depth(before), o, Depth(o));
      ArrivesNext(code, before, Depth(before), o, Depth(o));
    }
  }

  lemma {:induction false} Balanced(code: Script, entries: seq<Entry>, o: nat)
    requires IsNested(code) && entries == NestedEntries() && o < 15
    ensures Propagated(code, entries, o)
  {
    forall t | t in JumpTargets(code[o])
      ensures IsTarget(entries, t, HeightAfter(code[o], Depth(o), true))
    {
      OnlyJumps(code, o, t);
    }
  }

  /** What the sweep leaves at an offset. */
  ghost predicate EntryOk(code: Script, entries: seq<Entry>, o: nat)
    requires o < |code| == |entries|
  {
    entries[o].Entry? && entries[o].analyzed && Propagated(code, entries, o) && Arrives(code, o, entries[o].stackDepth)
  }

  lemma {:induction false} EntriesOk(code: Script, entries: seq<Entry>)
    requires IsNested(code) && entries == NestedEntries()
    ensures |code| == 15 && forall o: nat :: o < 15 ==> EntryOk(code, entries, o)
  {
    forall o: nat | o < 15
      ensures EntryOk(code, entries, o)
    {
      Balanced(code, entries, o);
      FallsDown(code, o);
    }
  }

  lemma {:induction false} Marked(code: Script, entries: seq<Entry>)
    requires IsNested(code) && entries == NestedEntries()
    ensures MarksOk(code, entries)
  {
    var source := map[1 := 13, 4 := 8, 7 := 6, 9 := 8, 12 := 6, 14 := 13];
    forall t: nat | t < 15 && Target(t)
      ensures BranchedTo(code, entries, t)
    {
      assert Analyzed(entries[source[t]]);
      assert JumpTargets(code[6]) == [12] && JumpTargets(code[8]) == [4] && JumpTargets(code[13]) == [1];
      assert Branches(code, source[t], t);
    }
  }

  lemma {:induction false} AllSwept(code: Script, entries: seq<Entry>)
    requires |code| == |entries| == 15 && HasDepth(entries, 0, 0) && forall o: nat :: o < 15 ==> EntryOk(code, entries, o)
    requires MarksOk(code, entries)
    ensures Swept(code, entries)
  {
    forall o: nat | o < |code|
      ensures entries[o].Entry? && entries[o].analyzed && Propagated(code, entries, o) && Arrives(code, o, entries[o].stackDepth)
    {
      assert EntryOk(code, entries, o);
    }
  }

  /** The script is one that the first pass accepts, and all its operations are reached. */
  lemma {:induction false} Accepted(code: Script, entries: seq<Entry>, reached: seq<bool>)
    requires Swept(code, entries) && entries == NestedEntries() && reached == AllReached()
    ensures DepthConsistent(code) && IsReachedSet(code, reached) && ReachClosed(code, reached)
  {
    SweptConsistent(code, entries);
    SweptReached(code, entries);
    assert ReachedOf(entries) == reached;
  }

  lemma {:induction false} OnlyJumps(code: Script, o: nat, t: nat)
    requires IsNested(code) && JumpEdge(code, o, t)
    ensures (o == 6 && t == 12) || (o == 8 && t == 4) || (o == 13 && t == 1)
  {
  }

  lemma {:induction false} Structured(code: Script, reached: seq<bool>, loops: map<nat, nat>)
    requires IsNested(code) && reached == AllReached() && loops == NestedTable()
    ensures StructuredLoops(code, reached, loops)
  {
    assert JumpEdge(code, 13, 1) by { assert JumpTargets(code[13]) == [1]; }
    assert JumpEdge(code, 8, 4) by { assert JumpTargets(code[8]) == [4]; }
    forall b: nat, h: nat | b < |code| && BackEdge(code, b, h)
      ensures h in loops && loops[h] == b
    {
      OnlyJumps(code, b, h);
    }
    NoEntries(code, loops);
  }

  lemma {:induction false} NoEntries(code: Script, loops: map<nat, nat>)
    requires IsNested(code) && loops == NestedTable()
    ensures forall h: nat, o: nat, t: nat :: h in loops && JumpEdge(code, o, t) && h <= t <= loops[h] ==> h <= o <= loops[h]
  {
    forall h: nat, o: nat, t: nat | h in loops && JumpEdge(code, o, t) && h <= t <= loops[h]
      ensures h <= o <= loops[h]
    {
      OnlyJumps(code, o, t);
    }
  }

  /** The inner loop is scanned with the variable dead. */
  lemma {:induction false} InnerDead(c: Scan)
    requires c.Ok() && IsNested(c.code) && c.reached == AllReached() && c.loops == NestedTable() && c.s == 2
    ensures !AliveIn(c, 4)
  {
    var dead := LifetimeVariable(false, [], 0);
    assert c.At(15) == dead;
    assert c.At(14) == dead;
    assert c.At(13) == dead;
    assert c.At(12) == dead;
    assert c.At(11) == dead;
    LineStill(c, 7, 10, 7, 11);
    var killed := LifetimeVariable(false, [Point(10, 0, true)], 0);
    assert c.At(7) == killed;
    assert !Covered(killed, 12);
    assert !c.At(6).alive;
    assert !c.At(5).alive;
  }

  lemma {:induction false} LiveBefore(code: Script, s: nat, o: nat, t: nat)
    requires IsLive(code, s, t) && o < |code| && Edge(code, o, t) && !Writes(code[o], s)
    ensures IsLive(code, s, o)
  {
    var p :| LivePath(code, p, s) && p[0] == t;
    var q := [o] + p;
    assert forall i :: 0 < i < |q| ==> q[i] == p[i - 1];
    assert LivePath(code, q, s) && q[0] == o;
  }

  /** The path 7, 8, 4, 5, 6, 12, 13, 1, 2 to the read. */
  lemma {:induction false} NestedPath(code: Script)
    requires IsNested(code)
    ensures IsLive(code, 2, 7)
  {
    hide IsLive;
    assert IsLive(code, 2, 2) by { ReadLive(code, 2, 2); }
    LiveBefore(code, 2, 1, 2);
    assert JumpTargets(code[13]) == [1];
    LiveBefore(code, 2, 13, 1);
    LiveBefore(code, 2, 12, 13);
    assert JumpTargets(code[6]) == [12];
    LiveBefore(code, 2, 6, 12);
    LiveBefore(code, 2, 5, 6);
    LiveBefore(code, 2, 4, 5);
    assert JumpTargets(code[8]) == [4];
    LiveBefore(code, 2, 8, 4);
    LiveBefore(code, 2, 7, 8);
  }

  lemma {:induction false} ReadLive(code: Script, s: nat, o: nat)
    requires o < |code| && Reads(code[o], s)
    ensures IsLive(code, s, o)
  {
    assert LivePath(code, [o], s) && [o][0] == o;
  }

  /**
   At offset 7 the variable is live, around the inner and then the outer loop, but
   not covered, although the script is one that the passes accept.
   */
  lemma {:induction false} NestedNotCovered(start: nat)
    requires start == 0
    ensures var code, reached, loops := Nested(), AllReached(), NestedTable();
            && DepthConsistent(code) && IsReachedSet(code, reached) && ReachClosed(code, reached) && StructuredLoops(code, reached, loops)
            && LiveAt(code, 2, 7) && !Covered(Scan(code, reached, loops, 2).At(start), 7)
            && !NoJumpOverWrite(Scan(code, reached, loops, 2))
  {
    assert IsNested(Nested());
    NestedFails(Nested(), AllReached(), NestedTable(), start);
  }

  lemma {:induction false} NestedFails(code: Script, reached: seq<bool>, loops: map<nat, nat>, start: nat)
    requires IsNested(code) && reached == AllReached() && loops == NestedTable() && start == 0
    ensures DepthConsistent(code) && IsReachedSet(code, reached) && ReachClosed(code, reached) && StructuredLoops(code, reached, loops)
    ensures LiveAt(code, 2, 7) && !Covered(Scan(code, reached, loops, 2).At(start), 7)
    ensures !NoJumpOverWrite(Scan(code, reached, loops, 2))
  {
    hide IsNested, DepthConsistent, IsReachedSet, ReachClosed, StructuredLoops, Swept, Covered, NoJumpOverWrite, IsLive, Scan.At, Arrives;
    EntriesOk(code, NestedEntries());
    Marked(code, NestedEntries());
    AllSwept(code, NestedEntries());
    Accepted(code, NestedEntries(), reached);
    Structured(code, reached, loops);
    NotCovered(Scan(code, reached, loops, 2), start);
    FallsDown(code, 7);
  }

  lemma {:induction false} NotCovered(c: Scan, start: nat)
    requires c.Ok() && IsNested(c.code) && c.reached == AllReached() && c.loops == NestedTable() && c.s == 2 && start == 0
    ensures IsLive(c.code, 2, 7) && !Covered(c.At(start), 7) && !NoJumpOverWrite(c)
  {
    hide StructuredLoops, ReachClosed, StepVariable, Scan.At;
    InnerDead(c);
    NestedPath(c.code);
    assert Strands(c, 7, 10);
    CoveredUnlessStranded(c, 7, start);
    assert JumpsOver(c, 1, 4, 6, 12, 10) by {
      assert JumpTargets(c.code[6]) == [12];
    }
  }
}
