/**
 The converse of soundness: each value in the expansion of what the SSA pass
 records at an operation, other than phi nodes, is the last write, or the initial
 value, of some run to that operation.
 */
module SsaRuns {
  import opened Bytecode
  import opened SsaValues
  import opened SsaState
  import opened SsaListing
  import opened SsaSources
  import opened SsaAnalysis

  ghost predicate RunTo(code: Script, p: seq<nat>, t: nat) {
    IsRun(code, p) && p[|p| - 1] == t
  }

  /** Some run arrives at t with value v in slot s. */
  ghost predicate Holds(code: Script, t: nat, s: nat, v: SsaValue) {
    exists p :: RunTo(code, p, t) && LastWriter(code, p, s) == v
  }

  /** The value of slot s after the last operation of the run. */
  ghost function After(code: Script, p: seq<nat>, s: nat): SsaValue
    requires IsRun(code, p)
  {
    var o := p[|p| - 1];
    if Writes(code[o], s) then Written(s, o) else LastWriter(code, p, s)
  }

  /** Some run arrives at o, and v is in slot s after that operation. */
  ghost predicate HoldsAfter(code: Script, o: nat, s: nat, v: SsaValue) {
    exists p :: RunTo(code, p, o) && After(code, p, s) == v
  }

  ghost predicate RunsReach(c: Context) {
    |c.reached| == |c.code| && forall t: nat :: t < |c.code| && c.reached[t] ==> exists p :: RunTo(c.code, p, t)
  }

  ghost predicate Plain(v: SsaValue) {
    v.Initial? || v.Written?
  }

  lemma {:induction false} RunExtends(code: Script, p: seq<nat>, t: nat, s: nat)
    requires IsRun(code, p) && t < |code| && Edge(code, p[|p| - 1], t)
    ensures RunTo(code, p + [t], t) && LastWriter(code, p + [t], s) == After(code, p, s)
  {
    assert (p + [t])[..|p|] == p;
  }

  lemma {:induction false} AfterArrives(code: Script, o: nat, t: nat, s: nat, v: SsaValue)
    requires HoldsAfter(code, o, s, v) && t < |code| && Edge(code, o, t)
    ensures Holds(code, t, s, v)
  {
    var p :| RunTo(code, p, o) && After(code, p, s) == v;
    RunExtends(code, p, t, s);
  }

  lemma {:induction false} RunReached(c: Context, p: seq<nat>, i: nat)
    requires c.Valid() && IsRun(c.code, p) && i < |p|
    ensures p[i] < |c.reached| == |c.code| && c.reached[p[i]]
    decreases i
  {
    hide StructuredLoops;
    if i > 0 {
      RunReached(c, p, i - 1);
      assert Edge(c.code, p[i - 1], p[i]);
    }
  }

  // ------------------------------------------------------------------ runs into loops

  /** The last place before n where the run is outside [lo, hi]. */
  lemma {:induction false} LastOutside(p: seq<nat>, lo: nat, hi: nat, n: nat) returns (j: nat)
    requires n < |p| && !(lo <= p[0] <= hi)
    ensures j <= n && !(lo <= p[j] <= hi) && forall i :: j < i <= n ==> lo <= p[i] <= hi
    decreases n
  {
    if lo <= p[n] <= hi {
      j := LastOutside(p, lo, hi, n - 1);
    } else {
      j := n;
    }
  }

  /** A run to a loop head that nothing falls into enters that loop by the goto before its head. */
  lemma {:induction false} EntersByGoto(c: Context, h: nat, q: seq<nat>) returns (j: nat)
    requires c.Valid() && h in c.loops && h > 0 && RunTo(c.code, q, h) && !FallsInto(c.code, c.reached, h)
    ensures j + 1 < |q| && q[j] == h - 1 && h - 1 < |c.code| && c.code[h - 1].Goto? && c.reached[h - 1]
    ensures forall i :: j < i < |q| ==> h <= q[i] <= c.loops[h]
  {
    hide ReachClosed;
    assert h <= c.loops[h];
    j := LastOutside(q, h, c.loops[h], |q| - 1);
    RunReached(c, q, j);
    assert Edge(c.code, q[j], q[j + 1]);
  }

  /** A value after an operation of a run holds at the later ones up to the next write. */
  lemma {:induction false} HoldsAlong(code: Script, q: seq<nat>, j: nat, k: nat, s: nat, v: SsaValue)
    requires IsRun(code, q) && j < k < |q| && HoldsAfter(code, q[j], s, v)
    requires forall i :: j < i < k ==> !Writes(code[q[i]], s)
    ensures Holds(code, q[k], s, v)
    decreases k
  {
    hide Holds, HoldsAfter;
    if k > j + 1 {
      HoldsAlong(code, q, j, k - 1, s, v);
      HoldsPast(code, q[k - 1], s, v);
    }
    AfterArrives(code, q[k - 1], q[k], s, v);
  }

  lemma {:induction false} HoldsPast(code: Script, o: nat, s: nat, v: SsaValue)
    requires Holds(code, o, s, v) && o < |code| && !Writes(code[o], s)
    ensures HoldsAfter(code, o, s, v)
  {
    var p :| RunTo(code, p, o) && LastWriter(code, p, s) == v;
    assert After(code, p, s) == v;
  }

  /** A value that the goto before a loop finds in a slot that the loop does not write is found at its head. */
  lemma {:induction false} HeadHolds(c: Context, h: nat, q: seq<nat>, s: nat, v: SsaValue)
    requires c.Valid() && h in c.loops && h > 0 && RunTo(c.code, q, h) && !FallsInto(c.code, c.reached, h)
    requires !c.WrittenIn(h, s) && HoldsAfter(c.code, h - 1, s, v)
    ensures Holds(c.code, h, s, v)
  {
    hide ReachClosed, StructuredLoops, Holds, HoldsAfter;
    var j := EntersByGoto(c, h, q);
    forall i | j < i < |q| - 1
      ensures !Writes(c.code[q[i]], s)
    {
      RunReached(c, q, i);
    }
    HoldsAlong(c.code, q, j, |q| - 1, s, v);
  }

  // ------------------------------------------------------------------ the theorem

  /** The pass is done. */
  ghost predicate Finished(c: Context, st: State, rec: Record) {
    && c.Valid() && RunsReach(c) && Shape(c, st) && History(c, st, |c.code|, |c.code|) && JumpsBefore(c, st, |c.code|)
    && ListsOk(c, st, rec, |c.code|, |c.code|) && Traced(c, st, rec)
  }

  lemma {:induction false} PlainExpansion(phis: seq<PhiNode>, v: SsaValue, w: SsaValue, n: nat)
    requires FlowsIn(phis, v, w, n) && !w.Phi?
    ensures v == w
  {
  }

  lemma {:induction false} LookupFinds(list: seq<SlotValue>, s: nat, none: SsaValue) returns (found: bool, i: nat)
    ensures if found then i < |list| && list[i] == SlotValue(s, Lookup(list, s, none)) else !HasEntry(list, s) && Lookup(list, s, none) == none
    decreases |list|
  {
    var n := |list| - 1;
    if |list| == 0 {
      found, i := false, 0;
    } else if list[n].slot == s {
      found, i := true, n;
    } else {
      found, i := LookupFinds(list[..n], s, none);
      if found {
        assert list[..n][i] == list[i];
      } else {
        forall j | 0 <= j < |list|
          ensures list[j].slot != s
        {
          assert j < n ==> list[..n][j] == list[j];
        }
      }
    }
  }

  /** What the pass knows about an executed operation. */
  lemma {:induction false} OutFacts(c: Context, st: State, rec: Record, o: nat, s: nat)
    requires Finished(c, st, rec) && o in st.outs && c.Track(s)
    ensures o < |c.code| && c.reached[o] && o in st.ins && s < |st.outs[o]| && s < |st.ins[o]|
    ensures st.outs[o][s] == if Writes(c.code[o], s) then Written(s, o) else st.ins[o][s]
    ensures exists p :: RunTo(c.code, p, o)
  {
    hide ListsOk, Traced, EdgesFlow, ReachClosed, StructuredLoops;
    assert Effect(c, st, o);
  }

  lemma {:induction false} SuccessorReached(c: Context, st: State, rec: Record, o: nat, t: nat)
    requires Finished(c, st, rec) && o in st.outs && Edge(c.code, o, t)
    ensures o < |c.code| && c.reached[o] && t < |c.code| && c.reached[t]
  {
    hide ListsOk, Traced, EdgesFlow, Effect, StructuredLoops;
  }

  /** An option of a phi node, and an operation that it comes from. */
  lemma {:induction false} OptionSource(c: Context, st: State, rec: Record, k: nat, u: SsaValue) returns (o: nat)
    requires Finished(c, st, rec) && k < |st.phis| && u in st.phis[k].options
    ensures k < |rec.created| && c.Track(st.phis[k].slot) && o in st.outs && Edge(c.code, o, rec.created[k])
    ensures st.phis[k].slot < |st.outs[o]| && st.outs[o][st.phis[k].slot] == u
  {
    hide ListsOk, History, ListsTraced, InsTraced;
    var s := st.phis[k].slot;
    assert Arriving(c, st.outs, rec.created[k], s, u);
    o :| o in st.outs && s < |st.outs[o]| && st.outs[o][s] == u && Edge(c.code, o, rec.created[k]);
  }

  /** What expands a phi node holds where the node was created. */
  lemma {:induction false} NodeRuns(c: Context, st: State, rec: Record, w: SsaValue, v: SsaValue, n: nat)
    requires Finished(c, st, rec) && w.Phi? && w.node < |st.phis| && FlowsIn(st.phis, v, w, n) && Plain(v)
    ensures w.node < |rec.created| && Holds(c.code, rec.created[w.node], st.phis[w.node].slot, v)
    decreases n, 0, 0
  {
    hide Finished, Holds, HoldsAfter;
    var u :| u in Options(st.phis, w) && FlowsIn(st.phis, v, u, n - 1);
    var o := OptionSource(c, st, rec, w.node, u);
    OutRuns(c, st, rec, o, st.phis[w.node].slot, v, n - 1);
    SuccessorReached(c, st, rec, o, rec.created[w.node]);
    AfterArrives(c.code, o, rec.created[w.node], st.phis[w.node].slot, v);
  }

  /** What expands the value after an operation holds after it. */
  lemma {:induction false} OutRuns(c: Context, st: State, rec: Record, o: nat, s: nat, v: SsaValue, n: nat)
    requires Finished(c, st, rec) && o in st.outs && c.Track(s) && s < |st.outs[o]|
    requires FlowsIn(st.phis, v, st.outs[o][s], n) && Plain(v)
    ensures HoldsAfter(c.code, o, s, v)
    decreases n, o + 1, 1
  {
    hide Finished, FlowsIn;
    OutFacts(c, st, rec, o, s);
    if Writes(c.code[o], s) {
      PlainExpansion(st.phis, v, st.outs[o][s], n);
      var p :| RunTo(c.code, p, o);
      assert After(c.code, p, s) == v;
    } else {
      InRuns(c, st, rec, o, s, v, n);
      var p :| RunTo(c.code, p, o) && LastWriter(c.code, p, s) == v;
      assert After(c.code, p, s) == v;
    }
  }

  /** What is listed for the slot at an entered operation, or that nothing is. */
  lemma {:induction false} InSource(c: Context, st: State, rec: Record, t: nat, s: nat) returns (found: bool, e: SlotValue)
    requires Finished(c, st, rec) && t in st.ins && c.Track(s)
    ensures t < |c.code| && s < |st.ins[t]| && Sized(c, st.outs) && c.Typed(st.phis, st.ins[t][s], s)
    ensures found ==> e == SlotValue(s, st.ins[t][s]) && EntryTraced(c, st, t, e)
    ensures found && Own(e, t) ==> e.value.node < |rec.created| && rec.created[e.value.node] == t
    ensures !found ==> !HasEntry(ListAt(st, rec, t), s) && st.ins[t][s] == Before(c, st.outs, t)[s]
  {
    hide EdgesFlow, Effect, NodesTraced, InsTraced, ReachClosed, StructuredLoops, NodeListed;
    assert ValuesListed(c, st, rec, t);
    var list := ListAt(st, rec, t);
    var i;
    found, i := LookupFinds(list, s, Before(c, st.outs, t)[s]);
    e := SlotValue(s, st.ins[t][s]);
    if found {
      assert EntryTraced(c, st, t, list[i]) && Owned(list, t, rec.created);
    }
  }

  /** What expands the value before an operation holds there. */
  lemma {:induction false} InRuns(c: Context, st: State, rec: Record, t: nat, s: nat, v: SsaValue, n: nat)
    requires Finished(c, st, rec) && t in st.ins && c.Track(s) && s < |st.ins[t]|
    requires FlowsIn(st.phis, v, st.ins[t][s], n) && Plain(v)
    ensures Holds(c.code, t, s, v)
    decreases n, t + 1, 0
  {
    hide Finished, FlowsIn, Holds, HoldsAfter;
    var found, e := InSource(c, st, rec, t, s);
    if found && Own(e, t) {
      NodeRuns(c, st, rec, e.value, v, n);
    } else if found {
      var o :| JumpSource(c, st, o, t) && s < |st.outs[o]| && st.outs[o][s] == e.value;
      OutRuns(c, st, rec, o, s, v, n);
      AfterArrives(c.code, o, t, s, v);
    } else {
      if t == 0 {
        FirstHolds(c, st, rec, s, v, n);
      } else {
        var o := UnlistedSource(c, st, rec, t, s);
        OutRuns(c, st, rec, o, s, v, n);
        if Edge(c.code, o, t) {
          AfterArrives(c.code, o, t, s, v);
        } else {
          HeadRuns(c, st, rec, t, s, v);
        }
      }
    }
  }

  /** The value of slot s at t is the one after the operation at o, and that goes to t, or stands before a loop that it enters. */
  ghost predicate CarriedFrom(c: Context, st: State, o: nat, t: nat, s: nat)
    requires |c.reached| == |c.code| && t in st.ins && s < |st.ins[t]|
  {
    && o < t && o in st.outs && s < |st.outs[o]| && st.outs[o][s] == st.ins[t][s]
    && (Edge(c.code, o, t) || (o == t - 1 && t in c.loops && !FallsInto(c.code, c.reached, t) && !c.WrittenIn(t, s)))
  }

  /** A run to an entered operation; the executed operations are the reached ones. */
  lemma {:induction false} Arrival(c: Context, st: State, rec: Record, t: nat) returns (p: seq<nat>)
    requires Finished(c, st, rec) && t in st.ins
    ensures c.Valid() && |c.reached| == |c.code| && t < |c.code| && RunTo(c.code, p, t)
    ensures forall o: nat :: o in st.outs <==> o < |c.code| && c.reached[o]
  {
    hide ListsOk, Traced, EdgesFlow, Effect, JumpsBefore, RunTo;
    p :| RunTo(c.code, p, t);
  }

  /** The value of a slot that is not listed is carried from an earlier operation. */
  lemma {:induction false} UnlistedSource(c: Context, st: State, rec: Record, t: nat, s: nat) returns (o: nat)
    requires Finished(c, st, rec) && 0 < t && t in st.ins && c.Track(s) && s < |st.ins[t]|
    requires !HasEntry(ListAt(st, rec, t), s) && Sized(c, st.outs) && st.ins[t][s] == Before(c, st.outs, t)[s]
    ensures CarriedFrom(c, st, o, t, s)
  {
    hide Finished, ReachClosed, StructuredLoops, RunTo, JumpTargets;
    var p := Arrival(c, st, rec, t);
    if FallsInto(c.code, c.reached, t) {
      o := t - 1;
    } else {
      o := LastJump(c, p, t);
      if o < t {
        UnlistedBrought(c, st, rec, o, t, s, st.ins[t][s]);
      } else {
        UnlistedLoop(c, st, rec, t, s, st.ins[t][s]);
        BackJump(c, o, t);
        var j := EntersByGoto(c, t, p);
        o := t - 1;
      }
    }
  }

  lemma {:induction false} UnlistedBrought(c: Context, st: State, rec: Record, o: nat, t: nat, s: nat, w: SsaValue)
    requires Finished(c, st, rec) && t in st.ins && c.Track(s) && !HasEntry(ListAt(st, rec, t), s)
    requires Sized(c, st.outs) && w == Before(c, st.outs, t)[s]
    requires o < t && o < |c.code| && c.reached[o] && JumpEdge(c.code, o, t)
    ensures o in st.outs && s < |st.outs[o]| && st.outs[o][s] == w
  {
    hide EdgesFlow, Effect, ListsTraced, NodesTraced, ListsOk, ReachClosed, StructuredLoops, IsRun, TargetsTraced, OutsDated;
    assert Unlisted(c, st, ListAt(st, rec, t), t, Before(c, st.outs, t));
    assert (o, t) in st.branches;
    assert BroughtEverywhere(c, st, t, s, w);
  }

  lemma {:induction false} UnlistedLoop(c: Context, st: State, rec: Record, t: nat, s: nat, w: SsaValue)
    requires Finished(c, st, rec) && t in st.ins && c.Track(s) && !HasEntry(ListAt(st, rec, t), s)
    requires Sized(c, st.outs) && w == Before(c, st.outs, t)[s]
    ensures !(t in c.loops && c.WrittenIn(t, s))
  {
    hide EdgesFlow, Effect, ListsTraced, NodesTraced, ListsOk, ReachClosed, StructuredLoops, IsRun, TargetsTraced, OutsDated, History;
    assert Unlisted(c, st, ListAt(st, rec, t), t, Before(c, st.outs, t));
  }

  /** The operation before the last of a run, if control does not fall into the last. */
  lemma {:induction false} LastJump(c: Context, p: seq<nat>, t: nat) returns (o: nat)
    requires c.Valid() && RunTo(c.code, p, t) && t > 0 && !FallsInto(c.code, c.reached, t)
    ensures o < |c.code| && c.reached[o] && JumpEdge(c.code, o, t)
  {
    hide ReachClosed, StructuredLoops;
    o := p[|p| - 2];
    RunReached(c, p, |p| - 2);
    assert Edge(c.code, o, p[|p| - 1]);
  }

  lemma {:induction false} BackJump(c: Context, o: nat, t: nat)
    requires c.Valid() && o < |c.code| && c.reached[o] && JumpEdge(c.code, o, t) && t <= o
    ensures t in c.loops
  {
    assert BackEdge(c.code, o, t);
  }

  lemma {:induction false} FirstHolds(c: Context, st: State, rec: Record, s: nat, v: SsaValue, n: nat)
    requires Finished(c, st, rec) && 0 in st.ins && s < |st.ins[0]| && s < |c.tracked|
    requires Sized(c, st.outs) && st.ins[0][s] == Before(c, st.outs, 0)[s] && FlowsIn(st.phis, v, st.ins[0][s], n)
    ensures Holds(c.code, 0, s, v)
  {
    hide ListsOk, Traced, EdgesFlow, Effect, ReachClosed, StructuredLoops;
    PlainExpansion(st.phis, v, Initial(s), n);
    assert RunTo(c.code, [0], 0) && LastWriter(c.code, [0], s) == Initial(s);
  }

  lemma {:induction false} HeadRuns(c: Context, st: State, rec: Record, h: nat, s: nat, v: SsaValue)
    requires Finished(c, st, rec) && h in st.ins && h > 0 && h in c.loops && !FallsInto(c.code, c.reached, h)
    requires !c.WrittenIn(h, s) && HoldsAfter(c.code, h - 1, s, v)
    ensures Holds(c.code, h, s, v)
  {
    hide ListsOk, Traced, EdgesFlow, Effect, ReachClosed, StructuredLoops, HoldsAfter, Holds;
    var q :| RunTo(c.code, q, h);
    HeadHolds(c, h, q, s, v);
  }

  lemma {:induction false} RecordedIn(c: Context, popped: map<nat, SsaValue>, ins: map<nat, seq<SsaValue>>, o: nat)
    requires RecordedBelow(c, popped, ins, |c.code|) && o in popped
    ensures AccessesTracked(c, o) && o in ins && c.code[o].slot < |ins[o]| && popped[o] == ins[o][c.code[o].slot]
  {
  }

  /** The pass records a value exactly where a run is about to access a tracked variable. */
  lemma {:induction false} RecordedWhere(c: Context, popped: map<nat, SsaValue>, ins: map<nat, seq<SsaValue>>, o: nat)
    requires c.Valid() && RunsReach(c) && RecordedBelow(c, popped, ins, |c.code|)
    ensures o in popped <==> o < |c.code| && Accesses(c.code[o]) && c.Track(c.code[o].slot) && exists p :: RunTo(c.code, p, o)
  {
    hide ReachClosed, StructuredLoops;
    if o < |c.code| && exists p :: RunTo(c.code, p, o) {
      var p :| RunTo(c.code, p, o);
      RunReached(c, p, |p| - 1);
      assert AccessesTracked(c, o) <==> Accesses(c.code[o]) && c.Track(c.code[o].slot);
    }
  }

  /**
   Precision of the pass: where it records the value of a variable, each write and
   each initial value in the expansion of that value is the last one of some run.
   */
  lemma {:induction false} SsaExact(c: Context, st: State, rec: Record, popped: map<nat, SsaValue>, o: nat, v: SsaValue)
    requires Finished(c, st, rec) && RecordedBelow(c, popped, st.ins, |c.code|)
    requires o in popped && Flows(st.phis, v, popped[o]) && Plain(v)
    ensures AccessesTracked(c, o) && Holds(c.code, o, c.code[o].slot, v)
  {
    hide Finished, Holds, RecordedBelow;
    RecordedIn(c, popped, st.ins, o);
    var n: nat :| FlowsIn(st.phis, v, popped[o], n);
    InRuns(c, st, rec, o, c.code[o].slot, v, n);
  }
}
