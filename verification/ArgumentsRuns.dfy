/**
 What the search for uses of the arguments object means for runs: values on the
 stack and in variables, which operations pop, copy and merge them, and which of
 them are the object.
 */
module ArgumentsRuns {
  import opened SsaValues
  import opened ArgumentsUsage

  /** A value has an SSA name and is the arguments object or not. */
  datatype Value = Value(name: SsaValue, isObject: bool)

  datatype Frame = Frame(stack: seq<Value>, slots: seq<Value>)

  /** A step of a run: an operation pops values and pushes others, reading a variable if it is one that does; or control joins. */
  datatype Step = Execute(offset: nat, pops: nat, read: nat, pushed: seq<Value>) | Merge

  /** Value i popped, from the top. */
  function Popped(f: Frame, i: nat): Value
    requires i < |f.stack|
  {
    f.stack[|f.stack| - 1 - i]
  }

  /** The name of value i pushed. */
  function PushedName(g: UseGraph, f: Frame, s: Step, i: nat): SsaValue
    requires s.Execute?
  {
    if g.OpAt(s.offset).GetLocal? && s.read < |f.slots| && g.TrackSlot(s.read) then f.slots[s.read].name else Pushed(s.offset, i)
  }

  /** Some popped value is the object. */
  ghost predicate PopsObject(f: Frame, pops: nat)
    requires pops <= |f.stack|
  {
    exists i :: 0 <= i < pops && Popped(f, i).isObject
  }

  /**
   What an operation does.  A write to a variable leaves the value on the stack, a
   read copies it there, under its own name if the variable is tracked; calls by `apply`, element reads and `length` give other
   values; anything else may give back the object only if it popped it.
   */
  ghost predicate Executes(g: UseGraph, argumentsOffset: nat, f: Frame, s: Step, f': Frame)
    requires s.Execute?
  {
    && s.pops <= |f.stack| && f'.stack == f.stack[..|f.stack| - s.pops] + s.pushed
    && (forall i :: 0 <= i < |s.pushed| ==> s.pushed[i].name == PushedName(g, f, s, i))
    && match g.OpAt(s.offset)
       case SetLocal(slot) =>
         && s.pops == 1 == |s.pushed| && slot < |f.slots| && s.pushed[0].isObject == Popped(f, 0).isObject
         && f'.slots == f.slots[slot := Value(Written(slot, s.offset), Popped(f, 0).isObject)]
       case GetLocal =>
         && s.pops == 0 && |s.pushed| == 1 && s.read < |f.slots| && s.pushed[0].isObject == f.slots[s.read].isObject
         && f'.slots == f.slots
       case OtherUse =>
         && f'.slots == f.slots
         && (PopsObject(f, s.pops) || forall i :: 0 <= i < |s.pushed| ==> s.pushed[i].isObject ==> s.offset == argumentsOffset && i == 0)
       case _ =>
         f'.slots == f.slots && forall i :: 0 <= i < |s.pushed| ==> !s.pushed[i].isObject
  }

  /** Values keep their identity where control joins, but may get the name of a phi node that has them as an option. */
  ghost predicate Renamed(g: UseGraph, v: Value, w: Value) {
    w.isObject == v.isObject && (w.name == v.name || (PhiUse(w.name) in g.Chain(v.name) && w.name.Phi?))
  }

  ghost predicate Merges(g: UseGraph, f: Frame, f': Frame) {
    && |f'.stack| == |f.stack| && |f'.slots| == |f.slots|
    && (forall i :: 0 <= i < |f.stack| ==> Renamed(g, f.stack[i], f'.stack[i]))
    && (forall i :: 0 <= i < |f.slots| ==> Renamed(g, f.slots[i], f'.slots[i]))
  }

  /** The use chains list what the operation pops, and the tracked variable that it reads. */
  ghost predicate UsesListed(g: UseGraph, f: Frame, s: Step)
    requires s.Execute? && s.pops <= |f.stack|
  {
    && (forall i :: 0 <= i < s.pops ==> PopUse(s.offset, i) in g.Chain(Popped(f, i).name))
    && (g.OpAt(s.offset).GetLocal? && s.read < |f.slots| && g.TrackSlot(s.read) ==> PopUse(s.offset, 0) in g.Chain(f.slots[s.read].name))
  }

  ghost predicate Takes(g: UseGraph, argumentsOffset: nat, f: Frame, s: Step, f': Frame) {
    match s
    case Merge => Merges(g, f, f')
    case Execute(_, _, _, _) => Executes(g, argumentsOffset, f, s, f') && UsesListed(g, f, s)
  }

  /** Frames of a run, which starts without the object. */
  ghost predicate IsRun(g: UseGraph, argumentsOffset: nat, frames: seq<Frame>, steps: seq<Step>) {
    && |frames| == |steps| + 1
    && (forall i :: 0 <= i < |frames[0].stack| ==> !frames[0].stack[i].isObject)
    && (forall i :: 0 <= i < |frames[0].slots| ==> !frames[0].slots[i].isObject)
    && (forall i :: 0 <= i < |steps| ==> Takes(g, argumentsOffset, frames[i], steps[i], frames[i + 1]))
  }

  /** Step n of the run pops the object as its value i. */
  ghost predicate Sees(frames: seq<Frame>, steps: seq<Step>, n: nat, i: nat) {
    && n < |steps| && n < |frames| && steps[n].Execute? && steps[n].pops <= |frames[n].stack|
    && i < steps[n].pops && Popped(frames[n], i).isObject
  }

  /** The object has only names that the search follows, and is in tracked variables only. */
  ghost predicate Followed(g: UseGraph, start: SsaValue, f: Frame) {
    && (forall i :: 0 <= i < |f.stack| && f.stack[i].isObject ==> g.MayHold(start, f.stack[i].name))
    && (forall i: nat :: i < |f.slots| && f.slots[i].isObject ==> g.MayHold(start, f.slots[i].name) && g.TrackSlot(i))
  }

  lemma {:induction false} UsePasses(g: UseGraph, start: SsaValue, v: SsaValue, use: Use, w: SsaValue)
    requires g.MayHold(start, v) && use in g.Chain(v) && w in g.Next(use) && g.TrackUseChain(w)
    ensures g.MayHold(start, w)
  {
    var i :| 0 <= i < |g.Chain(v)| && g.Chain(v)[i] == use;
    assert g.UseOf(start, v, i);
    HoldsStep(g, start, v, i, w);
  }

  lemma {:induction false} UseAllowed(g: UseGraph, start: SsaValue, v: SsaValue, use: Use)
    requires g.Harmless(start) && g.MayHold(start, v) && use in g.Chain(v)
    ensures g.Allowed(use)
  {
    var i :| 0 <= i < |g.Chain(v)| && g.Chain(v)[i] == use;
    assert g.UseOf(start, v, i);
  }

  lemma {:induction false} MergeFollowed(g: UseGraph, start: SsaValue, f: Frame, f': Frame)
    requires Followed(g, start, f) && Merges(g, f, f')
    ensures Followed(g, start, f')
  {
    forall i | 0 <= i < |f'.stack| && f'.stack[i].isObject
      ensures g.MayHold(start, f'.stack[i].name)
    {
      RenamedFollowed(g, start, f.stack[i], f'.stack[i]);
    }
    forall i: nat | i < |f'.slots| && f'.slots[i].isObject
      ensures g.MayHold(start, f'.slots[i].name) && g.TrackSlot(i)
    {
      RenamedFollowed(g, start, f.slots[i], f'.slots[i]);
    }
  }

  lemma {:induction false} RenamedFollowed(g: UseGraph, start: SsaValue, v: Value, w: Value)
    requires Renamed(g, v, w) && g.MayHold(start, v.name)
    ensures g.MayHold(start, w.name)
  {
    if w.name != v.name {
      UsePasses(g, start, v.name, PhiUse(w.name), w.name);
    }
  }

  lemma {:induction false} PoppedAllowed(g: UseGraph, start: SsaValue, f: Frame, s: Step, k: nat)
    requires g.Harmless(start) && Followed(g, start, f) && s.Execute? && s.pops <= |f.stack| && UsesListed(g, f, s)
    requires k < s.pops && Popped(f, k).isObject
    ensures g.Allowed(PopUse(s.offset, k))
  {
    UseAllowed(g, start, Popped(f, k).name, PopUse(s.offset, k));
  }

  /** What an operation pushes is followed if it is the object. */
  lemma {:induction false} PushedFollowed(g: UseGraph, argumentsOffset: nat, start: SsaValue, f: Frame, s: Step, f': Frame, i: nat)
    requires start == Pushed(argumentsOffset, 0) && g.Harmless(start) && Followed(g, start, f)
    requires s.Execute? && Executes(g, argumentsOffset, f, s, f') && UsesListed(g, f, s)
    requires i < |s.pushed| && s.pushed[i].isObject
    ensures g.MayHold(start, s.pushed[i].name)
  {
    forall k | 0 <= k < s.pops && Popped(f, k).isObject
      ensures g.Allowed(PopUse(s.offset, k))
    {
      PoppedAllowed(g, start, f, s, k);
    }
    match g.OpAt(s.offset)
    case SetLocal(slot) =>
      UsePasses(g, start, Popped(f, 0).name, PopUse(s.offset, 0), Pushed(s.offset, 0));
    case GetLocal =>
      assert g.MayHold(start, f.slots[s.read].name);
    case OtherUse =>
      assert g.Holds(start, start, 0);
    case _ =>
  }

  lemma {:induction false} ExecuteFollowed(g: UseGraph, argumentsOffset: nat, start: SsaValue, f: Frame, s: Step, f': Frame)
    requires start == Pushed(argumentsOffset, 0) && g.Harmless(start) && Followed(g, start, f)
    requires s.Execute? && Executes(g, argumentsOffset, f, s, f') && UsesListed(g, f, s)
    ensures Followed(g, start, f')
  {
    var kept := |f.stack| - s.pops;
    forall i | 0 <= i < |f'.stack| && f'.stack[i].isObject
      ensures g.MayHold(start, f'.stack[i].name)
    {
      if i >= kept {
        PushedFollowed(g, argumentsOffset, start, f, s, f', i - kept);
      }
    }
    var op := g.OpAt(s.offset);
    if op.SetLocal? && Popped(f, 0).isObject {
      UsePasses(g, start, Popped(f, 0).name, PopUse(s.offset, 0), Written(op.slot, s.offset));
      UseAllowed(g, start, Popped(f, 0).name, PopUse(s.offset, 0));
    }
  }

  lemma {:induction false} RunFollowed(g: UseGraph, argumentsOffset: nat, start: SsaValue, frames: seq<Frame>, steps: seq<Step>, n: nat)
    requires start == Pushed(argumentsOffset, 0) && g.Harmless(start)
    requires IsRun(g, argumentsOffset, frames, steps) && n < |frames|
    ensures Followed(g, start, frames[n])
    decreases n
  {
    if n > 0 {
      var k := n - 1;
      RunFollowed(g, argumentsOffset, start, frames, steps, k);
      assert Takes(g, argumentsOffset, frames[k], steps[k], frames[k + 1]);
      if steps[k].Merge? {
        MergeFollowed(g, start, frames[k], frames[n]);
      } else {
        ExecuteFollowed(g, argumentsOffset, start, frames[k], steps[k], frames[n]);
      }
    }
  }

  /** An operation that sees the object, and the place of the use in the chain of the object's name. */
  lemma {:induction false} SeenUse(g: UseGraph, argumentsOffset: nat, start: SsaValue, frames: seq<Frame>, steps: seq<Step>, n: nat, i: nat)
    returns (v: SsaValue, j: nat)
    requires start == Pushed(argumentsOffset, 0) && g.Harmless(start)
    requires IsRun(g, argumentsOffset, frames, steps) && Sees(frames, steps, n, i)
    ensures g.UseOf(start, v, j) && g.Chain(v)[j] == PopUse(steps[n].offset, i)
  {
    RunFollowed(g, argumentsOffset, start, frames, steps, n);
    assert Takes(g, argumentsOffset, frames[n], steps[n], frames[n + 1]);
    v := Popped(frames[n], i).name;
    j :| 0 <= j < |g.Chain(v)| && g.Chain(v)[j] == PopUse(steps[n].offset, i);
  }

  /**
   If the search finds the uses harmless, then on every run an operation that sees
   the object drops it, stores it in a tracked variable, or reads an element or the
   length of it, or passes it on by `apply`; and if one applies it, that is the only
   one that applies or reads it.
   */
  lemma {:induction false} HarmlessRuns(g: UseGraph, argumentsOffset: nat, start: SsaValue, frames: seq<Frame>, steps: seq<Step>,
                                        n: nat, i: nat, m: nat, k: nat)
    requires start == Pushed(argumentsOffset, 0) && g.Harmless(start)
    requires IsRun(g, argumentsOffset, frames, steps) && Sees(frames, steps, n, i) && Sees(frames, steps, m, k)
    ensures g.Allowed(PopUse(steps[n].offset, i)) && !g.OpAt(steps[n].offset).OtherUse?
    ensures g.IsApply(PopUse(steps[n].offset, i)) && (g.IsApply(PopUse(steps[m].offset, k)) || g.IsRead(PopUse(steps[m].offset, k))) ==>
              steps[n].offset == steps[m].offset && i == k
  {
    var v, j := SeenUse(g, argumentsOffset, start, frames, steps, n, i);
    var w, l := SeenUse(g, argumentsOffset, start, frames, steps, m, k);
  }
}
