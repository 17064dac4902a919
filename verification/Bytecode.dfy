/**
 The bytecode seen by the script analyses: one abstract operation per offset,
 its control-flow edges, the stack effect of each operation, and the runs of a
 script.  Operations have unit length, so an offset is an index.
 */
module Bytecode {

  datatype Op =
    | GetSlot(slot: nat)                             // GETARG, GETLOCAL, CALLARG, CALLLOCAL
    | SetSlot(slot: nat)                             // SETARG, SETLOCAL
    | IncSlot(slot: nat)                             // INC, DEC of an argument or local
    | Goto(target: nat)
    | CondJump(target: nat, uses: nat, defs: nat)    // IFEQ, IFNE, AND, OR, ...
    | CaseJump(target: nat)                          // CASE
    | Switch(cases: seq<nat>, otherwise: nat)        // TABLESWITCH, LOOKUPSWITCH
    | LoopHead
    | LoopEntry
    | Return(uses: nat)
    | Other(uses: nat, defs: nat)

  type Script = seq<Op>

  predicate NoFallThrough(op: Op) {
    op.Goto? || op.Switch? || op.Return?
  }

  /** JOF_JUMP operations: the only ones that can be back edges. */
  predicate IsJump(op: Op) {
    op.Goto? || op.CondJump? || op.CaseJump?
  }

  function JumpTargets(op: Op): seq<nat> {
    match op
    case Goto(t) => [t]
    case CondJump(t, _, _) => [t]
    case CaseJump(t) => [t]
    case Switch(cases, t) => cases + [t]
    case _ => []
  }

  predicate Writes(op: Op, s: nat) {
    (op.SetSlot? || op.IncSlot?) && op.slot == s
  }

  predicate Reads(op: Op, s: nat) {
    (op.GetSlot? || op.IncSlot?) && op.slot == s
  }

  /** ExtendedUse: the operation records the value of a variable before it runs. */
  predicate Accesses(op: Op) {
    op.GetSlot? || op.SetSlot? || op.IncSlot?
  }

  predicate FallEdge(code: Script, o: nat, t: nat) {
    o < |code| && t == o + 1 && !NoFallThrough(code[o])
  }

  predicate JumpEdge(code: Script, o: nat, t: nat) {
    o < |code| && t in JumpTargets(code[o])
  }

  predicate Edge(code: Script, o: nat, t: nat) {
    FallEdge(code, o, t) || JumpEdge(code, o, t)
  }

  /** A run visits offset 0 first and follows control-flow edges. */
  ghost predicate IsRun(code: Script, p: seq<nat>) {
    && |p| > 0 && p[0] == 0
    && (forall i :: 0 <= i < |p| ==> p[i] < |code|)
    && (forall i :: 0 < i < |p| ==> Edge(code, p[i - 1], p[i]))
  }

  /** Some operation that the sweep reached in [lo, hi] writes slot s. */
  ghost predicate WrittenBetween(code: Script, reached: seq<bool>, s: nat, lo: nat, hi: nat)
    requires |reached| == |code|
  {
    exists o :: lo <= o <= hi && o < |code| && reached[o] && Writes(code[o], s)
  }

  /** The entry point is reached and the reached offsets are closed under edges. */
  ghost predicate ReachClosed(code: Script, reached: seq<bool>) {
    && |reached| == |code| > 0 && reached[0]
    && (forall o: nat, t: nat :: o < |code| && reached[o] && Edge(code, o, t) ==> t < |code| && reached[t])
  }

  predicate BackEdge(code: Script, b: nat, h: nat) {
    JumpEdge(code, b, h) && h <= b
  }

  /** `loops` maps the head of each loop to its unique reached back edge. */
  ghost predicate LoopTable(code: Script, reached: seq<bool>, loops: map<nat, nat>)
    requires |reached| == |code|
  {
    && (forall h :: h in loops ==> h < loops[h] < |code| && reached[loops[h]] && JumpEdge(code, loops[h], h))
    && (forall b: nat, h: nat :: b < |code| && reached[b] && BackEdge(code, b, h) ==> h in loops && loops[h] == b)
  }

  /** Control falls into offset t from a reached operation. */
  predicate FallsInto(code: Script, reached: seq<bool>, t: nat)
    requires |reached| == |code|
  {
    0 < t <= |code| && reached[t - 1] && !NoFallThrough(code[t - 1])
  }

  /**
   Shape of loops that the emitter produces: back edges are plain jumps to loop
   heads, and a loop is entered either through its head, when the head is also
   fallen into, or by the goto just before its head.
   */
  ghost predicate StructuredLoops(code: Script, reached: seq<bool>, loops: map<nat, nat>)
    requires |reached| == |code|
  {
    && LoopTable(code, reached, loops)
    && (forall h :: h in loops ==> h < |code| && code[h].LoopHead? && IsJump(code[loops[h]]))
    && (forall h: nat, o: nat, t: nat ::
          h in loops && o < |code| && reached[o] && JumpEdge(code, o, t)
          && h <= t <= loops[h] && !(h <= o <= loops[h]) ==>
            (o < t == h && FallsInto(code, reached, h)) || (o + 1 == h < t && code[o].Goto?))
  }
}
