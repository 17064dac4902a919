/**
 The three passes together: bytecode, lifetimes, SSA.
 */
module ScriptAnalysis {
  import opened Bytecode
  import opened BytecodeSweep
  import opened Lifetimes
  import opened LifetimeGaps
  import opened Liveness
  import opened LivenessLimits
  import opened Coverage
  import LifetimeSteps
  import LifetimeAnalysis
  import opened SsaValues
  import opened SsaState
  import opened SsaListing
  import opened SsaSources
  import opened SsaRuns
  import SsaAnalysis

  /** Arguments and locals start after the callee and `this`. */
  const FIRST_ARG_SLOT := 2

  /** `trackSlot`: the slots whose writes the SSA pass distinguishes. */
  function TrackedSlots(escapes: seq<bool>, canTrackVars: bool): seq<bool> {
    seq(|escapes|, s requires 0 <= s < |escapes| => FIRST_ARG_SLOT <= s && !escapes[s] && canTrackVars && s < 1000)
  }

  function ReachedOf(entries: seq<Entry>): (r: seq<bool>)
    ensures |r| == |entries| && forall o :: 0 <= o < |r| ==> r[o] == entries[o].Entry?
  {
    seq(|entries|, o requires 0 <= o < |entries| => entries[o].Entry?)
  }

  /** `reached` is the set of offsets that some run arrives at. */
  ghost predicate IsReachedSet(code: Script, reached: seq<bool>) {
    |reached| == |code| && forall o: nat :: o < |code| ==> (reached[o] <==> exists height :: Arrives(code, o, height))
  }

  lemma {:induction false} SweptReached(code: Script, entries: seq<Entry>)
    requires Swept(code, entries)
    ensures IsReachedSet(code, ReachedOf(entries)) && ReachClosed(code, ReachedOf(entries))
  {
    SweptConsistent(code, entries);
    var reached := ReachedOf(entries);
    forall o: nat | o < |code|
      ensures reached[o] <==> exists height :: Arrives(code, o, height)
    {
      if entries[o].Entry? {
        assert HasDepth(entries, o, entries[o].stackDepth);
        assert Arrives(code, o, entries[o].stackDepth);
      }
    }
    forall o: nat, t: nat | o < |code| && reached[o] && Edge(code, o, t)
      ensures t < |code| && reached[t]
    {
      assert Propagated(code, entries, o);
    }
  }

  /** A run arrives at an operation that accesses an argument or local below slot 1000 that does not escape. */
  ghost predicate IsRecorded(code: Script, escapes: seq<bool>, canTrackVars: bool, o: nat) {
    && o < |code| && Accesses(code[o]) && (exists p :: RunTo(code, p, o))
    && canTrackVars && 2 <= code[o].slot < 1000 && code[o].slot < |escapes| && !escapes[code[o].slot]
  }

  /**
   The SSA result of a script: values are recorded exactly at the accesses to tracked
   variables that runs arrive at, and each expands to what the variable may be there.
   */
  ghost predicate SsaCorrect(code: Script, table: map<nat, nat>, escapes: seq<bool>, canTrackVars: bool, phis: seq<PhiNode>,
                             popped: map<nat, SsaValue>) {
    && (forall o: nat :: o in popped <==> IsRecorded(code, escapes, canTrackVars, o))
    && (forall o: nat :: o in popped ==> ExpandsAt(code, table, phis, popped[o], o))
  }

  /**
   What the value recorded at o expands to.  Apart from phi nodes for the variable,
   these are the last writes to it, or its initial value, of the runs to o: each of
   them, and no others; but for an initial value that the loop at the start of the
   script forgets.
   */
  ghost predicate ExpandsAt(code: Script, table: map<nat, nat>, phis: seq<PhiNode>, w: SsaValue, o: nat) {
    && o < |code| && Accesses(code[o])
    && (forall v :: Plain(v) ==> (Flows(phis, v, w) <==> Holds(code, o, code[o].slot, v) && !IsForgotten(code, table, code[o].slot, v)))
    && (forall v :: Flows(phis, v, w) && !Plain(v) ==> v.Phi? && v.node < |phis| && phis[v.node].slot == code[o].slot)
  }

  /** v is the initial value of slot s, and a first loop writes the slot. */
  ghost predicate IsForgotten(code: Script, table: map<nat, nat>, s: nat, v: SsaValue) {
    v == Initial(s) && FirstLoopWrites(code, table, s)
  }

  /** The script starts with a loop that writes slot s in a run. */
  ghost predicate FirstLoopWrites(code: Script, table: map<nat, nat>, s: nat) {
    0 in table && exists o: nat :: o <= table[0] && o < |code| && Writes(code[o], s) && exists height :: Arrives(code, o, height)
  }

  /** Slot s is live at t, which some run reaches. */
  ghost predicate LiveAt(code: Script, s: nat, t: nat) {
    t < |code| && (exists height :: Arrives(code, t, height)) && IsLive(code, s, t)
  }

  /** Where the segments of slot s are: a walk leads from t to an access, or from the head of a loop that may come round from t. */
  ghost predicate LeadsOrLoops(code: Script, reached: seq<bool>, table: map<nat, nat>, s: nat, t: nat) {
    LeadsToAccess(Scan(code, reached, table, s), t) || LoopsToAccess(Scan(code, reached, table, s), t, 0)
  }

  /**
   The lifetimes of a script.  Variables that escape have no segments; others are
   covered exactly where a walk, or a loop and a walk, lead to an access.  Where a variable is live, it is covered exactly if the
   offset is not stranded, and none is if no jump out of an inner loop passes over a
   write to the variable in an outer one.
   */
  ghost predicate LivenessCorrect(code: Script, reached: seq<bool>, table: map<nat, nat>, escapes: seq<bool>, vars: seq<LifetimeVariable>) {
    && |reached| == |code| && |escapes| == |vars|
    && (forall s: nat :: s < |vars| && escapes[s] ==> vars[s] == LifetimeVariable(false, [], 0))
    && (forall s: nat, t: nat :: s < |vars| && !escapes[s] && t < |code| ==>
          (LifetimeSteps.Covered(vars[s], t) <==> LeadsOrLoops(code, reached, table, s, t)))
    && (forall s: nat, t: nat :: s < |vars| && !escapes[s] && LiveAt(code, s, t) ==>
          (LifetimeSteps.Covered(vars[s], t) <==> !Stranded(Scan(code, reached, table, s), t)))
    && (forall s: nat, t: nat :: s < |vars| && !escapes[s] && LiveAt(code, s, t)
                                 && NoJumpOverWrite(Scan(code, reached, table, s)) ==>
          LifetimeSteps.Covered(vars[s], t))
  }

  method RunLifetimes(code: Script, reached: seq<bool>, escapes: seq<bool>, ghost table: map<nat, nat>)
    returns (vars: seq<LifetimeVariable>, loops: map<nat, nat>, ghost end: nat)
    requires ReachClosed(code, reached) && StructuredLoops(code, reached, table)
    ensures |vars| == |escapes| && loops == table && end == 0
    ensures forall s: nat :: s < |vars| && !escapes[s] ==> SlotOk(code, reached, table, s, vars[s], end)
    ensures forall s: nat :: s < |vars| && escapes[s] ==> vars[s] == LifetimeVariable(false, [], 0)
  {
    var analysis := new LifetimeAnalysis.Analysis(code, reached, escapes);
    end := analysis.Analyze(table);
    vars, loops := analysis.vars, analysis.loops;
  }

  method RunSsa(code: Script, reached: seq<bool>, tracked: seq<bool>, vars: seq<LifetimeVariable>, loops: map<nat, nat>)
    returns (phis: seq<PhiNode>, popped: map<nat, SsaValue>, newValues: map<nat, seq<SlotValue>>)
    requires |code| < UINT32_MAX && IsReachedSet(code, reached) && ReachClosed(code, reached) && StructuredLoops(code, reached, loops)
    requires |vars| == |tracked|
    requires forall s: nat :: s < |tracked| && tracked[s] ==>
               Sorted(vars[s].segments) && WritesIndexed(code, reached, s, vars[s].segments)
    ensures PassCorrect(Context(code, reached, loops, tracked), phis, popped) && NodesListedOnce(phis, newValues)
  {
    hide Top, ListsOk, RecordedBelow, Traced, ReachClosed, StructuredLoops, PassCorrect;
    var c := Context(code, reached, loops, tracked);
    var analysis := new SsaAnalysis.Analysis(c, vars);
    analysis.Analyze();
    phis, popped, newValues := analysis.phis, analysis.popped, analysis.newValues;
    FinalLists(c, analysis.Abs(), analysis.Rec(), |code|);
    ResultsCorrect(c, analysis.Abs(), analysis.Rec(), popped, |code|);
  }

  /** The result of the pass for the slots that it tracks. */
  ghost predicate PassCorrect(c: Context, phis: seq<PhiNode>, popped: map<nat, SsaValue>) {
    && (forall o: nat :: o in popped <==> o < |c.code| && Accesses(c.code[o]) && c.Track(c.code[o].slot) && exists p :: RunTo(c.code, p, o))
    && (forall o: nat :: o in popped ==> ExpandsAt(c.code, c.loops, phis, popped[o], o))
  }

  lemma {:induction false} RunsAreStackRuns(c: Context)
    requires IsReachedSet(c.code, c.reached)
    ensures RunsReach(c)
  {
    forall t: nat | t < |c.code| && c.reached[t]
      ensures exists p :: RunTo(c.code, p, t)
    {
      var height :| Arrives(c.code, t, height);
      var p, heights :| ArrivesBy(c.code, p, heights, t, height);
      StackRunIsRun(c.code, p, heights);
      assert RunTo(c.code, p, t);
    }
  }

  lemma {:induction false} StackRunIsRun(code: Script, p: seq<nat>, heights: seq<nat>)
    requires IsStackRun(code, p, heights)
    ensures IsRun(code, p)
  {
  }

  lemma {:induction false} ResultsCorrect(c: Context, st: State, rec: Record, popped: map<nat, SsaValue>, n: nat)
    requires c.Valid() && IsReachedSet(c.code, c.reached) && n == |c.code| && Top(c, st, n)
    requires ListsOk(c, st, rec, n, n) && Traced(c, st, rec) && RecordedBelow(c, popped, st.ins, n)
    ensures PassCorrect(c, st.phis, popped)
  {
    hide Inv, Dated, Sourced, History, JumpsBefore, FallValues, ListsOk, Traced, RecordedBelow, ReachClosed, StructuredLoops, ExpandsAt, IsReachedSet, RunTo;
    RunsAreStackRuns(c);
    assert Finished(c, st, rec) by { TopFinished(c, st, rec, n); }
    forall o: nat
      ensures o in popped <==> o < |c.code| && Accesses(c.code[o]) && c.Track(c.code[o].slot) && exists p :: RunTo(c.code, p, o)
      ensures o in popped ==> ExpandsAt(c.code, c.loops, st.phis, popped[o], o)
    {
      RecordedWhere(c, popped, st.ins, o);
      if o in popped {
        ExpandsRight(c, st, rec, popped, o);
      }
    }
  }

  lemma {:induction false} TopFinished(c: Context, st: State, rec: Record, n: nat)
    requires c.Valid() && RunsReach(c) && n == |c.code| && Top(c, st, n) && ListsOk(c, st, rec, n, n) && Traced(c, st, rec)
    ensures Finished(c, st, rec)
  {
    hide Bookkeeping, Threshold, ActiveLoops, History, JumpsBefore, ListsOk, Traced, ReachClosed, StructuredLoops;
  }

  lemma {:induction false} ExpandsRight(c: Context, st: State, rec: Record, popped: map<nat, SsaValue>, o: nat)
    requires Finished(c, st, rec) && IsReachedSet(c.code, c.reached) && RecordedBelow(c, popped, st.ins, |c.code|) && o in popped
    ensures ExpandsAt(c.code, c.loops, st.phis, popped[o], o)
  {
    hide Finished, RecordedBelow, Holds, IsReachedSet, Flows;
    RecordedIn(c, popped, st.ins, o);
    var s := c.code[o].slot;
    ForgetsFirst(c, s);
    forall v | Plain(v)
      ensures Flows(st.phis, v, popped[o]) <==> Holds(c.code, o, s, v) && !IsForgotten(c.code, c.loops, s, v)
    {
      if Flows(st.phis, v, popped[o]) {
        SsaExact(c, st, rec, popped, o, v);
      }
      HoldsFlows(c, st, rec, popped, o, v);
    }
    forall v | Flows(st.phis, v, popped[o]) && !Plain(v)
      ensures v.Phi? && v.node < |st.phis| && st.phis[v.node].slot == s
    {
      RecordedTyped(c, st, rec, popped, o, v);
    }
  }

  lemma {:induction false} RecordedTyped(c: Context, st: State, rec: Record, popped: map<nat, SsaValue>, o: nat, v: SsaValue)
    requires Finished(c, st, rec) && RecordedBelow(c, popped, st.ins, |c.code|) && o in popped && Flows(st.phis, v, popped[o])
    ensures AccessesTracked(c, o) && c.Typed(st.phis, v, c.code[o].slot)
  {
    hide ListsOk, Traced, EdgesFlow, Effect, ReachClosed, StructuredLoops, RecordedBelow, Flows;
    RecordedIn(c, popped, st.ins, o);
    SsaAnalysis.ExpansionTyped(c, st.phis, v, popped[o], c.code[o].slot);
  }

  lemma {:induction false} HoldsFlows(c: Context, st: State, rec: Record, popped: map<nat, SsaValue>, o: nat, v: SsaValue)
    requires Finished(c, st, rec) && RecordedBelow(c, popped, st.ins, |c.code|) && o in popped
    ensures AccessesTracked(c, o)
    ensures Holds(c.code, o, c.code[o].slot, v) ==>
      (Flows(st.phis, v, popped[o]) <==> !(c.Forgets(c.code[o].slot) && v == Initial(c.code[o].slot)))
  {
    hide ListsOk, Traced, EdgesFlow, Effect, ReachClosed, StructuredLoops, RecordedBelow, Flows;
    RecordedIn(c, popped, st.ins, o);
    if Holds(c.code, o, c.code[o].slot, v) {
      var p :| RunTo(c.code, p, o) && SsaAnalysis.LastWriter(c.code, p, c.code[o].slot) == v;
      SsaAnalysis.SsaSound(c, st, popped, p);
    }
  }

  /** In a script that does not start with a loop, the last writer is always in the expansion. */
  lemma {:induction false} NoFirstLoop(code: Script, table: map<nat, nat>, escapes: seq<bool>, canTrackVars: bool, phis: seq<PhiNode>,
                          popped: map<nat, SsaValue>, p: seq<nat>, o: nat)
    requires SsaCorrect(code, table, escapes, canTrackVars, phis, popped) && 0 !in table
    requires RunTo(code, p, o) && Accesses(code[o]) && canTrackVars
    requires 2 <= code[o].slot < 1000 && code[o].slot < |escapes| && !escapes[code[o].slot]
    ensures o in popped && Flows(phis, SsaAnalysis.LastWriter(code, p, code[o].slot), popped[o])
  {
    hide Flows;
    var v := SsaAnalysis.LastWriter(code, p, code[o].slot);
    LastWriterPlain(code, p, code[o].slot);
    assert IsRecorded(code, escapes, canTrackVars, o);
    assert ExpandsAt(code, table, phis, popped[o], o) && Holds(code, o, code[o].slot, v);
  }

  lemma {:induction false} LastWriterPlain(code: Script, p: seq<nat>, s: nat)
    requires |p| > 0 && forall i :: 0 <= i < |p| ==> p[i] < |code|
    ensures Plain(SsaAnalysis.LastWriter(code, p, s))
    decreases |p|
  {
    if |p| > 1 && !Writes(code[p[|p| - 2]], s) {
      LastWriterPlain(code, p[..|p| - 1], s);
    }
  }

  lemma {:induction false} ForgetsFirst(c: Context, s: nat)
    requires IsReachedSet(c.code, c.reached)
    ensures c.Forgets(s) <==> FirstLoopWrites(c.code, c.loops, s)
  {
  }

  lemma {:induction false} IndexedFromStart(code: Script, reached: seq<bool>, table: map<nat, nat>, s: nat, v: LifetimeVariable, end: nat)
    requires |reached| == |code| && end == 0 && SlotOk(code, reached, table, s, v, end)
    ensures Sorted(v.segments) && WritesIndexed(code, reached, s, v.segments)
  {
  }

  lemma {:induction false} LivenessFromSlots(code: Script, reached: seq<bool>, table: map<nat, nat>, escapes: seq<bool>,
                          vars: seq<LifetimeVariable>, end: nat)
    requires IsReachedSet(code, reached) && ReachClosed(code, reached) && StructuredLoops(code, reached, table)
    requires |vars| == |escapes| && end == 0
    requires forall s: nat :: s < |vars| && !escapes[s] ==> SlotOk(code, reached, table, s, vars[s], end)
    requires forall s: nat :: s < |vars| && escapes[s] ==> vars[s] == LifetimeVariable(false, [], 0)
    ensures LivenessCorrect(code, reached, table, escapes, vars)
  {
    hide ReachClosed, StructuredLoops, LifetimeSteps.VariableOk, LifetimeSteps.Covered, LeadsToAccess, LoopsToAccess;
    forall s: nat, t: nat | s < |vars| && !escapes[s] && t < |code|
      ensures LifetimeSteps.Covered(vars[s], t) <==> LeadsOrLoops(code, reached, table, s, t)
    {
      CoveredExactly(Scan(code, reached, table, s), t, end);
    }
    forall s: nat, t: nat | s < |vars| && !escapes[s] && LiveAt(code, s, t)
      ensures LifetimeSteps.Covered(vars[s], t) <==> !Stranded(Scan(code, reached, table, s), t)
    {
      CoveredUnlessStranded(Scan(code, reached, table, s), t, end);
    }
    forall s: nat, t: nat | s < |vars| && !escapes[s] && LiveAt(code, s, t) && NoJumpOverWrite(Scan(code, reached, table, s))
      ensures LifetimeSteps.Covered(vars[s], t)
    {
      LiveIsCovered(Scan(code, reached, table, s), t, end);
    }
  }

  /** All three passes.  They fail exactly when runs disagree on stack heights. */
  method AnalyzeScript(code: Script, escapes: seq<bool>, canTrackVars: bool, ghost table: map<nat, nat>)
    returns (ok: bool, reached: seq<bool>, vars: seq<LifetimeVariable>, phis: seq<PhiNode>, popped: map<nat, SsaValue>,
             newValues: map<nat, seq<SlotValue>>)
    requires 0 < |code| < UINT32_MAX
    requires forall reached :: IsReachedSet(code, reached) ==> StructuredLoops(code, reached, table)
    ensures ok <==> DepthConsistent(code)
    ensures ok ==> IsReachedSet(code, reached) && LivenessCorrect(code, reached, table, escapes, vars)
    ensures ok ==> SsaCorrect(code, table, escapes, canTrackVars, phis, popped)
    ensures ok ==> NodesListedOnce(phis, newValues)
  {
    reached, vars, phis, popped, newValues := [], [], [], map[], map[];
    var sweep := new Sweep(code);
    ok := sweep.Run();
    if !ok {
      return;
    }
    reached := ReachedOf(sweep.entries);
    SweptReached(code, sweep.entries);
    var loops;
    ghost var end;
    vars, loops, end := RunLifetimes(code, reached, escapes, table);
    var tracked := TrackedSlots(escapes, canTrackVars);
    forall s: nat | s < |tracked| && tracked[s]
      ensures Sorted(vars[s].segments) && WritesIndexed(code, reached, s, vars[s].segments)
    {
      IndexedFromStart(code, reached, table, s, vars[s], end);
    }
    phis, popped, newValues := RunSsa(code, reached, tracked, vars, loops);
    LivenessFromSlots(code, reached, table, escapes, vars, end);
    TrackedCorrect(Context(code, reached, loops, tracked), escapes, canTrackVars, phis, popped);
  }

  lemma {:induction false} TrackedCorrect(c: Context, escapes: seq<bool>, canTrackVars: bool, phis: seq<PhiNode>, popped: map<nat, SsaValue>)
    requires PassCorrect(c, phis, popped) && c.tracked == TrackedSlots(escapes, canTrackVars)
    ensures SsaCorrect(c.code, c.loops, escapes, canTrackVars, phis, popped)
  {
    hide ExpandsAt, RunTo;
    forall o: nat
      ensures o in popped <==> IsRecorded(c.code, escapes, canTrackVars, o)
    {
    }
  }
}
