/**
 The bytecode pass: a forward sweep that records the stack depth of every
 reachable operation, and rolls back when a back edge makes an earlier operation
 reachable.
 */
module BytecodeSweep {
  import opened Bytecode

  /** What the pass knows about an offset; there is no entry until a path to the offset is found. */
  datatype Entry =
    | NoEntry
    | Entry(stackDepth: nat, analyzed: bool, jumpTarget: bool, fallthrough: bool, jumpFallthrough: bool)

  function Uses(op: Op): nat {
    match op
    case SetSlot(_) => 1
    case CondJump(_, uses, _) => uses
    case CaseJump(_) => 2
    case Switch(_, _) => 1
    case Return(uses) => uses
    case Other(uses, _) => uses
    case _ => 0
  }

  function Defs(op: Op): nat {
    match op
    case GetSlot(_) => 1
    case SetSlot(_) => 1
    case IncSlot(_) => 1
    case CondJump(_, _, defs) => defs
    case CaseJump(_) => 1
    case Other(_, defs) => defs
    case _ => 0
  }

  /** Stack height after an operation: CASE does not push its operand back when it branches. */
  function HeightAfter(op: Op, height: nat, jumps: bool): nat
    requires Uses(op) <= height
  {
    var after := height - Uses(op) + Defs(op);
    if jumps && op.CaseJump? then after - 1 else after
  }

  /** One step of a run from offset o with this stack height to offset t. */
  ghost predicate Moves(code: Script, o: nat, height: nat, t: nat, height': nat) {
    && o < |code| && Uses(code[o]) <= height
    && ((FallEdge(code, o, t) && height' == HeightAfter(code[o], height, false))
        || (JumpEdge(code, o, t) && height' == HeightAfter(code[o], height, true)))
  }

  /** A run with its stack heights. */
  ghost predicate IsStackRun(code: Script, p: seq<nat>, heights: seq<nat>) {
    && |p| == |heights| > 0 && p[0] == 0 && heights[0] == 0
    && (forall i :: 0 <= i < |p| ==> p[i] < |code|)
    && (forall i :: 0 < i < |p| ==> Moves(code, p[i - 1], heights[i - 1], p[i], heights[i]))
  }

  predicate Created(e: Entry) {
    e.Entry?
  }

  predicate Analyzed(e: Entry) {
    e.Entry? && e.analyzed
  }

  /** There is an entry at t with this depth. */
  ghost predicate HasDepth(entries: seq<Entry>, t: nat, depth: nat) {
    t < |entries| && entries[t].Entry? && entries[t].stackDepth == depth
  }

  /** There is an entry at t with this depth, marked as a jump target. */
  ghost predicate IsTarget(entries: seq<Entry>, t: nat, depth: nat) {
    HasDepth(entries, t, depth) && entries[t].jumpTarget
  }

  /** All successors of the operation at o have entries with the depth it leaves, and those it branches to are marked. */
  ghost predicate Propagated(code: Script, entries: seq<Entry>, o: nat)
    requires o < |code| == |entries| && entries[o].Entry?
  {
    var d := entries[o].stackDepth;
    && Uses(code[o]) <= d
    && (!NoFallThrough(code[o]) ==> HasDepth(entries, o + 1, HeightAfter(code[o], d, false)))
    && (!NoFallThrough(code[o]) && IsJump(code[o]) ==> IsTarget(entries, o + 1, HeightAfter(code[o], d, false)))
    && (forall t :: t in JumpTargets(code[o]) ==> IsTarget(entries, t, HeightAfter(code[o], d, true)))
  }

  /** The operation at o branches to t: it jumps there, or t is the fallthrough of its jump. */
  predicate Branches(code: Script, o: nat, t: nat) {
    JumpEdge(code, o, t) || (FallEdge(code, o, t) && IsJump(code[o]))
  }

  /** An operation that was analyzed branches to t. */
  ghost predicate BranchedTo(code: Script, entries: seq<Entry>, t: nat) {
    exists o: nat :: o < |entries| && Analyzed(entries[o]) && Branches(code, o, t)
  }

  /** Only targets of branches are marked. */
  ghost predicate MarksOk(code: Script, entries: seq<Entry>) {
    forall t: nat :: t < |entries| && entries[t].Entry? && entries[t].jumpTarget ==> BranchedTo(code, entries, t)
  }

  ghost predicate ArrivesBy(code: Script, p: seq<nat>, heights: seq<nat>, o: nat, height: nat) {
    IsStackRun(code, p, heights) && p[|p| - 1] == o && heights[|p| - 1] == height
  }

  /** Some run arrives at offset o with this stack height. */
  ghost predicate Arrives(code: Script, o: nat, height: nat) {
    exists p, heights :: ArrivesBy(code, p, heights, o, height)
  }

  lemma {:induction false} ArrivesNext(code: Script, o: nat, height: nat, t: nat, height': nat)
    requires Arrives(code, o, height) && Moves(code, o, height, t, height') && t < |code|
    ensures Arrives(code, t, height')
  {
    var p, hs :| ArrivesBy(code, p, hs, o, height);
    assert ArrivesBy(code, p + [t], hs + [height'], t, height');
  }

  /** No run underflows its stack or leaves the script, and all runs arrive at an offset with the same height. */
  ghost predicate DepthConsistent(code: Script) {
    && (forall o: nat, height: nat :: Arrives(code, o, height) ==> o < |code| && Uses(code[o]) <= height)
    && (forall o: nat, height: nat, t: nat :: Arrives(code, o, height) && Edge(code, o, t) ==> t < |code|)
    && (forall o: nat, height: nat, height': nat :: Arrives(code, o, height) && Arrives(code, o, height') ==> height == height')
  }

  lemma {:induction false} LeavesScript(code: Script, o: nat, height: nat, t: nat)
    requires Arrives(code, o, height) && Edge(code, o, t) && t >= |code|
    ensures !DepthConsistent(code)
  {
  }

  lemma {:induction false} Disagree(code: Script, o: nat, height: nat, height': nat)
    requires Arrives(code, o, height) && Arrives(code, o, height') && height != height'
    ensures !DepthConsistent(code)
  {
  }

  /** Later states of the pass: entries keep their depth, stay analyzed, and none disappears. */
  ghost predicate Extends(a: seq<Entry>, b: seq<Entry>) {
    |a| == |b| && forall o :: 0 <= o < |a| && a[o].Entry? ==>
      b[o].Entry? && b[o].stackDepth == a[o].stackDepth && (a[o].analyzed ==> b[o].analyzed) && (a[o].jumpTarget ==> b[o].jumpTarget)
  }

  class Sweep {
    const code: Script
    var entries: seq<Entry>
    var nextOffset: nat

    ghost predicate Valid()
      reads this
    {
      && |entries| == |code| > 0 && nextOffset <= |code|
      && HasDepth(entries, 0, 0)
      && (forall o: nat :: o < |code| && entries[o].Entry? ==> Arrives(code, o, entries[o].stackDepth))
      && MarksOk(code, entries)
    }

    /** Every entry before the next offset is analyzed: what is left lies ahead. */
    ghost predicate Behind()
      reads this
    {
      forall o :: 0 <= o < |entries| && o < nextOffset && Created(entries[o]) ==> Analyzed(entries[o])
    }

    ghost predicate Closed(except: int)
      requires |entries| == |code|
      reads this
    {
      forall o :: 0 <= o < |code| && o != except && Analyzed(entries[o]) ==> Propagated(code, entries, o)
    }

    /** An analyzed operation falls into offset t. */
    ghost predicate Falls(t: nat)
      requires |entries| == |code|
      reads this
    {
      0 < t <= |code| && Analyzed(entries[t - 1]) && !NoFallThrough(code[t - 1])
    }

    /** The fallthrough flags tell whether an analyzed operation falls into the offset, except for one still to be set. */
    ghost predicate FlagsOk(unset: int)
      requires |entries| == |code|
      reads this
    {
      forall t: nat :: t < |code| && entries[t].Entry? ==>
        && (entries[t].fallthrough <==> t != unset && Falls(t) && !IsJump(code[t - 1]))
        && (entries[t].jumpFallthrough <==> t != unset && Falls(t) && IsJump(code[t - 1]))
    }

    ghost function Unanalyzed(): set<nat>
      reads this
    {
      set o: nat | o < |entries| && !Analyzed(entries[o])
    }

    /** Where an operation other than the current one falls to, there is an entry. */
    lemma {:induction false} FallsKnown(offset: nat, t: nat)
      requires |entries| == |code| && Closed(offset) && t < |code| && Falls(t) && t != offset + 1
      ensures entries[t].Entry?
    {
      assert Propagated(code, entries, t - 1);
    }

    /** Record a jump to the target; a back edge to an operation that was not analyzed rolls the sweep back. */
    method AddJump(target: nat, stackDepth: nat, ghost offset: nat) returns (ok: bool)
      requires Valid() && Behind() && Closed(offset) && FlagsOk(offset + 1)
      requires offset < |code| && Analyzed(entries[offset]) && JumpEdge(code, offset, target)
      requires Uses(code[offset]) <= entries[offset].stackDepth
      requires stackDepth == HeightAfter(code[offset], entries[offset].stackDepth, true)
      modifies this`entries, this`nextOffset
      ensures Valid() && Behind() && Closed(offset) && FlagsOk(offset + 1)
      ensures Extends(old(entries), entries) && Unanalyzed() == old(Unanalyzed()) && nextOffset <= old(nextOffset)
      ensures ok ==> IsTarget(entries, target, stackDepth)
      ensures !ok ==> !DepthConsistent(code)
    {
      hide Propagated, MarksOk, DepthConsistent, Arrives;
      ghost var depth := entries[offset].stackDepth;
      assert Arrives(code, offset, depth);
      if target >= |code| {
        LeavesScript(code, offset, depth, target);
        return false;
      }
      ArrivesNext(code, offset, depth, target, stackDepth);
      if Falls(target) && target != offset + 1 {
        FallsKnown(offset, target);
      }
      var e := entries[target];
      if e.NoEntry? {
        e := Entry(stackDepth, false, false, false, false);
      }
      ok := e.stackDepth == stackDepth;
      if !ok {
        Disagree(code, target, e.stackDepth, stackDepth);
        return;
      }
      entries := entries[target := e.(jumpTarget := true)];
      ClosedKept(old(entries), offset);
      MarksKept(code, old(entries), entries, offset, target);
      assert forall t: nat :: t < |code| ==> Falls(t) == old(Falls(t));
      RollBack(target, offset);
    }

    /** If the target was passed without being analyzed, go back to it. */
    method RollBack(target: nat, ghost offset: nat)
      requires Valid() && Closed(offset) && FlagsOk(offset + 1) && target < |code| && Created(entries[target])
      requires forall o :: 0 <= o < nextOffset && o != target && Created(entries[o]) ==> Analyzed(entries[o])
      modifies this`nextOffset
      ensures Valid() && Behind() && Closed(offset) && FlagsOk(offset + 1) && nextOffset <= old(nextOffset)
    {
      if target < nextOffset && !entries[target].analyzed {
        nextOffset := target;
      }
    }

    lemma {:induction false} ClosedKept(before: seq<Entry>, except: int)
      requires |before| == |code| && Extends(before, entries) && |entries| == |code|
      requires forall o :: 0 <= o < |code| && Analyzed(entries[o]) ==> Analyzed(before[o])
      requires forall o :: 0 <= o < |code| && o != except && Analyzed(before[o]) ==> Propagated(code, before, o)
      ensures Closed(except)
    {
    }

    /** Record that the operation at the offset falls into the next one. */
    method AddFall(offset: nat, stackDepth: nat, jump: bool) returns (ok: bool)
      requires Valid() && Behind() && Closed(offset) && FlagsOk(offset + 1)
      requires nextOffset <= offset + 1 && offset < |code| && Analyzed(entries[offset]) && !NoFallThrough(code[offset])
      requires jump == IsJump(code[offset])
      requires Uses(code[offset]) <= entries[offset].stackDepth
      requires stackDepth == HeightAfter(code[offset], entries[offset].stackDepth, false)
      modifies this`entries
      ensures Valid() && Behind() && Closed(offset)
      ensures Extends(old(entries), entries) && Unanalyzed() == old(Unanalyzed())
      ensures ok ==> HasDepth(entries, offset + 1, stackDepth) && (jump ==> IsTarget(entries, offset + 1, stackDepth)) && FlagsOk(-1)
      ensures !ok ==> !DepthConsistent(code)
    {
      hide Propagated, MarksOk, DepthConsistent, Arrives;
      var target := offset + 1;
      ghost var depth := entries[offset].stackDepth;
      assert Arrives(code, offset, depth);
      if target >= |code| {
        LeavesScript(code, offset, depth, target);
        return false;
      }
      ArrivesNext(code, offset, depth, target, stackDepth);
      var e := entries[target];
      if e.NoEntry? {
        e := Entry(stackDepth, false, false, false, false);
      }
      ok := e.stackDepth == stackDepth;
      if !ok {
        Disagree(code, target, e.stackDepth, stackDepth);
        return;
      }
      entries := entries[target := if jump then e.(jumpFallthrough := true, jumpTarget := true) else e.(fallthrough := true)];
      ClosedKept(old(entries), offset);
      MarksKept(code, old(entries), entries, offset, target);
      assert forall t: nat :: t < |code| ==> Falls(t) == old(Falls(t));
    }

    /** Record all the jumps of the operation at the offset. */
    method AddJumps(offset: nat, targets: seq<nat>, stackDepth: nat) returns (ok: bool)
      requires Valid() && Behind() && Closed(offset) && FlagsOk(offset + 1)
      requires offset < |code| && Analyzed(entries[offset]) && forall t :: t in targets ==> JumpEdge(code, offset, t)
      requires Uses(code[offset]) <= entries[offset].stackDepth
      requires stackDepth == HeightAfter(code[offset], entries[offset].stackDepth, true)
      modifies this`entries, this`nextOffset
      ensures Valid() && Behind() && Closed(offset) && FlagsOk(offset + 1)
      ensures Extends(old(entries), entries) && Unanalyzed() == old(Unanalyzed()) && nextOffset <= old(nextOffset)
      ensures ok ==> forall t :: t in targets ==> IsTarget(entries, t, stackDepth)
      ensures !ok ==> !DepthConsistent(code)
    {
      hide Propagated, MarksOk, DepthConsistent, Arrives;
      ok := true;
      var i := 0;
      while i < |targets| && ok
        invariant 0 <= i <= |targets|
        invariant Valid() && Behind() && Closed(offset) && FlagsOk(offset + 1)
        invariant Extends(old(entries), entries) && Unanalyzed() == old(Unanalyzed()) && nextOffset <= old(nextOffset)
        invariant Analyzed(entries[offset]) && entries[offset].stackDepth == old(entries[offset].stackDepth)
        invariant ok ==> forall j :: 0 <= j < i ==> IsTarget(entries, targets[j], stackDepth)
        invariant !ok ==> !DepthConsistent(code)
      {
        ok := AddJump(targets[i], stackDepth, offset);
        i := i + 1;
      }
    }

    /** Analyze the operation at the offset; fails where a depth assertion does. */
    method AnalyzeOp(offset: nat) returns (ok: bool)
      requires Valid() && Behind() && Closed(-1) && FlagsOk(-1)
      requires offset < |code| && nextOffset == offset && Created(entries[offset]) && !Analyzed(entries[offset])
      modifies this`entries, this`nextOffset
      ensures Valid() && (ok ==> Behind() && Closed(-1) && FlagsOk(-1))
      ensures Unanalyzed() == old(Unanalyzed()) - {offset}
      ensures !ok ==> !DepthConsistent(code)
    {
      hide MarksOk;
      var op := code[offset];
      var depth := entries[offset].stackDepth;
      entries := entries[offset := entries[offset].(analyzed := true)];
      nextOffset := offset + 1;
      assert Closed(offset) by { MarkKept(old(entries), offset); }
      MarksKept(code, old(entries), entries, offset, offset);
      assert Unanalyzed() == old(Unanalyzed()) - {offset};
      if depth < Uses(op) {
        assert Arrives(code, offset, depth);
        return false;
      }
      var targets := if op.Switch? then [op.otherwise] + op.cases else JumpTargets(op);
      assert forall t :: t in targets <==> t in JumpTargets(op);
      ok := AddJumps(offset, targets, HeightAfter(op, depth, true));
      if ok && !NoFallThrough(op) {
        ok := AddFall(offset, HeightAfter(op, depth, false), IsJump(op));
      }
      if ok {
        assert Propagated(code, entries, offset);
      }
    }

    lemma {:induction false} MarkKept(before: seq<Entry>, offset: nat)
      requires |before| == |code| == |entries| && offset < |code| && Extends(before, entries)
      requires forall o :: 0 <= o < |code| && o != offset && Analyzed(entries[o]) ==> Analyzed(before[o])
      requires forall o :: 0 <= o < |code| && Analyzed(before[o]) ==> Propagated(code, before, o)
      ensures Closed(offset)
    {
    }

    constructor (code: Script)
      requires |code| > 0
      ensures this.code == code && nextOffset == 0
      ensures entries == seq(|code|, o => if o == 0 then Entry(0, false, false, false, false) else NoEntry)
    {
      this.code := code;
      nextOffset := 0;
      entries := seq(|code|, o => if o == 0 then Entry(0, false, false, false, false) else NoEntry);
    }

    /** The sweep: it succeeds exactly when all runs agree on the stack height at every offset. */
    method Run() returns (ok: bool)
      requires |code| > 0 && nextOffset == 0
      requires entries == seq(|code|, o => if o == 0 then Entry(0, false, false, false, false) else NoEntry)
      modifies this`entries, this`nextOffset
      ensures ok ==> Swept(code, entries) && FlagsOk(-1)
      ensures ok <==> DepthConsistent(code)
    {
      ArrivesStart(code);
      ok := true;
      while nextOffset < |code|
        invariant Valid() && Behind() && Closed(-1) && FlagsOk(-1)
        decreases Unanalyzed(), |code| - nextOffset
      {
        var offset := nextOffset;
        if !Created(entries[offset]) || Analyzed(entries[offset]) {
          nextOffset := offset + 1;
        } else {
          assert offset in Unanalyzed();
          ok := AnalyzeOp(offset);
          if !ok {
            return;
          }
        }
      }
      SweptConsistent(code, entries);
    }
  }

  lemma {:induction false} ArrivesStart(code: Script)
    requires |code| > 0
    ensures Arrives(code, 0, 0)
  {
    assert ArrivesBy(code, [0], [0], 0, 0);
  }

  /** The result of a successful sweep. */
  ghost predicate Swept(code: Script, entries: seq<Entry>) {
    && |entries| == |code| > 0 && HasDepth(entries, 0, 0)
    && (forall o: nat :: o < |code| && entries[o].Entry? ==> entries[o].analyzed && Propagated(code, entries, o))
    && (forall o: nat :: o < |code| && entries[o].Entry? ==> Arrives(code, o, entries[o].stackDepth))
    && MarksOk(code, entries)
  }

  /** After the sweep the marked offsets are exactly those that a reached operation branches to. */
  lemma {:induction false} TargetsMarked(code: Script, entries: seq<Entry>, t: nat)
    requires Swept(code, entries)
    ensures (t < |code| && entries[t].Entry? && entries[t].jumpTarget)
            <==> (exists o: nat, height: nat :: Arrives(code, o, height) && Branches(code, o, t))
  {
    SweptConsistent(code, entries);
    if t < |code| && entries[t].Entry? && entries[t].jumpTarget {
      var o: nat :| o < |entries| && Analyzed(entries[o]) && Branches(code, o, t);
      assert HasDepth(entries, o, entries[o].stackDepth);
    }
    forall o: nat, height: nat | Arrives(code, o, height) && Branches(code, o, t)
      ensures t < |code| && entries[t].Entry? && entries[t].jumpTarget
    {
      assert HasDepth(entries, o, height) && Propagated(code, entries, o);
    }
  }

  /** A mark at the target of the operation at the offset is a new one at most there. */
  lemma {:induction false} MarksKept(code: Script, before: seq<Entry>, after: seq<Entry>, offset: nat, target: nat)
    requires MarksOk(code, before) && Extends(before, after) && target < |after|
    requires forall t: nat :: t < |after| && t != target && after[t].Entry? && after[t].jumpTarget ==> before[t].Entry? && before[t].jumpTarget
    requires after[target].Entry? && after[target].jumpTarget ==>
               (before[target].Entry? && before[target].jumpTarget)
               || (offset < |after| && Analyzed(after[offset]) && Branches(code, offset, target))
    ensures MarksOk(code, after)
  {
    forall t: nat | t < |after| && after[t].Entry? && after[t].jumpTarget
      ensures BranchedTo(code, after, t)
    {
      if before[t].Entry? && before[t].jumpTarget {
        var o: nat :| o < |before| && Analyzed(before[o]) && Branches(code, o, t);
        assert Analyzed(after[o]);
      }
    }
  }

  /** Every run arrives at every offset with the recorded stack depth. */
  lemma {:induction false} DepthsSound(code: Script, entries: seq<Entry>, p: seq<nat>, heights: seq<nat>)
    requires Swept(code, entries) && IsStackRun(code, p, heights)
    ensures HasDepth(entries, p[|p| - 1], heights[|p| - 1])
    decreases |p|
  {
    if |p| > 1 {
      var n := |p| - 1;
      DepthsSound(code, entries, p[..n], heights[..n]);
      assert Moves(code, p[n - 1], heights[n - 1], p[n], heights[n]);
      assert Propagated(code, entries, p[n - 1]);
    }
  }

  lemma {:induction false} SweptConsistent(code: Script, entries: seq<Entry>)
    requires Swept(code, entries)
    ensures DepthConsistent(code)
    ensures forall o: nat, height: nat :: Arrives(code, o, height) <==> HasDepth(entries, o, height)
  {
    forall o: nat, height: nat | Arrives(code, o, height)
      ensures HasDepth(entries, o, height)
    {
      var p, hs :| ArrivesBy(code, p, hs, o, height);
      DepthsSound(code, entries, p, hs);
    }
    forall o: nat, height: nat, t: nat | Arrives(code, o, height) && Edge(code, o, t)
      ensures t < |code|
    {
      assert Propagated(code, entries, o);
    }
  }
}
