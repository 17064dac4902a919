/**
 Whether a script needs its arguments object: a search through the uses of the
 value of ARGUMENTS, across phi nodes and local variables.
 */
module ArgumentsUsage {
  import opened SsaValues

  /** The operations the search tells apart. */
  datatype UseOp =
    | Pop                  // POP, POPN
    | FunApply(argc: nat)
    | GetElem
    | Length
    | SetLocal(slot: nat)
    | GetLocal
    | OtherUse

  /** A link of a use chain: a phi node that holds the value, or an operation that pops it. */
  datatype Use = PhiUse(phi: SsaValue) | PopUse(offset: nat, which: nat)

  /** The use chains and the operations of a script. */
  datatype UseGraph = UseGraph(uses: map<SsaValue, seq<Use>>, ops: map<nat, UseOp>, tracked: seq<bool>) {

    function Chain(v: SsaValue): seq<Use> {
      if v in uses then uses[v] else []
    }

    function OpAt(offset: nat): UseOp {
      if offset in ops then ops[offset] else OtherUse
    }

    predicate TrackSlot(slot: nat) {
      slot < |tracked| && tracked[slot]
    }

    /** `fun.apply(x, arguments)`, which can read the actual arguments directly. */
    predicate IsApply(use: Use) {
      use.PopUse? && OpAt(use.offset) == FunApply(2) && use.which == 0
    }

    /** `arguments[i]` and `arguments.length`. */
    predicate IsRead(use: Use) {
      use.PopUse? && ((OpAt(use.offset).GetElem? && use.which == 1) || OpAt(use.offset).Length?)
    }

    predicate Allowed(use: Use) {
      use.PhiUse? || OpAt(use.offset).Pop? || IsApply(use) || IsRead(use) || OpAt(use.offset).GetLocal?
      || (OpAt(use.offset).SetLocal? && TrackSlot(OpAt(use.offset).slot))
    }

    /** Values that hold the popped or merged value afterwards. */
    function Next(use: Use): seq<SsaValue> {
      match use
      case PhiUse(phi) => [phi]
      case PopUse(offset, _) =>
        match OpAt(offset)
        case SetLocal(slot) => [Pushed(offset, 0), Written(slot, offset)]
        case GetLocal => [Pushed(offset, 0)]
        case _ => []
    }

    /** `trackUseChain`: initial values of variables have no use chain. */
    predicate TrackUseChain(v: SsaValue) {
      !v.Empty? && !v.Initial?
    }

    ghost predicate Flow(v: SsaValue, w: SsaValue) {
      exists i :: 0 <= i < |Chain(v)| && w in Next(Chain(v)[i]) && TrackUseChain(w)
    }

    /** The value may be the arguments object that `start` denotes. */
    ghost predicate Holds(start: SsaValue, v: SsaValue, n: nat)
      decreases n
    {
      if n == 0 then v == start && TrackUseChain(start)
      else exists u :: Holds(start, u, n - 1) && Flow(u, v)
    }

    ghost predicate MayHold(start: SsaValue, v: SsaValue) {
      exists n: nat :: Holds(start, v, n)
    }

    /** A use of a value that may be the arguments object. */
    ghost predicate UseOf(start: SsaValue, v: SsaValue, i: nat) {
      MayHold(start, v) && i < |Chain(v)|
    }

    /** All uses are allowed, and an optimized apply is the only use that looks at the arguments. */
    ghost predicate Harmless(start: SsaValue) {
      && (forall v, i: nat :: UseOf(start, v, i) ==> Allowed(Chain(v)[i]))
      && (forall v, i: nat, w, j: nat ::
            (&& UseOf(start, v, i) && UseOf(start, w, j) && IsApply(Chain(v)[i])
             && (IsApply(Chain(w)[j]) || IsRead(Chain(w)[j]))) ==> v == w && i == j)
    }
  }

  lemma {:induction false} HoldsStep(g: UseGraph, start: SsaValue, v: SsaValue, i: nat, w: SsaValue)
    requires g.UseOf(start, v, i) && w in g.Next(g.Chain(v)[i]) && g.TrackUseChain(w)
    ensures g.MayHold(start, w)
  {
    var n: nat :| g.Holds(start, v, n);
    assert g.Flow(v, w);
    assert g.Holds(start, w, n + 1);
  }

  /** A set of values that contains the start and is closed under flow contains every value that may be the object. */
  lemma {:induction false} ClosedHolds(g: UseGraph, start: SsaValue, seen: set<SsaValue>, v: SsaValue, n: nat)
    requires start in seen || !g.TrackUseChain(start)
    requires forall u, i: nat, w :: u in seen && i < |g.Chain(u)| && w in g.Next(g.Chain(u)[i]) && g.TrackUseChain(w) ==> w in seen
    requires g.Holds(start, v, n)
    ensures v in seen
    decreases n
  {
    if n != 0 {
      var u :| g.Holds(start, u, n - 1) && g.Flow(u, v);
      ClosedHolds(g, start, seen, u, n - 1);
    }
  }

  /** An occurrence of a use: a value and an index into its use chain. */
  type Site = (SsaValue, nat)

  ghost predicate IsSite(g: UseGraph, u: Site) {
    u.1 < |g.Chain(u.0)|
  }

  ghost function UseAt(g: UseGraph, u: Site): Use
    requires IsSite(g, u)
  {
    g.Chain(u.0)[u.1]
  }

  /** The sites dealt with so far, and among them the optimized applies and the lookups. */
  datatype Done = Done(sites: set<Site>, applies: set<Site>, lookups: set<Site>)

  ghost function Add(g: UseGraph, d: Done, u: Site): Done
    requires IsSite(g, u)
  {
    Done(d.sites + {u},
         if g.IsApply(UseAt(g, u)) then d.applies + {u} else d.applies,
         if g.IsRead(UseAt(g, u)) then d.lookups + {u} else d.lookups)
  }

  /** What the flags of the search say about the sites dealt with so far. */
  ghost predicate Consistent(g: UseGraph, start: SsaValue, seen: set<SsaValue>, d: Done, can: bool, have: bool) {
    && (forall v :: v in seen ==> g.MayHold(start, v))
    && (forall u :: u in d.sites ==> u.0 in seen && IsSite(g, u) && g.Allowed(UseAt(g, u)))
    && (forall u :: u in d.sites && IsSite(g, u) ==> (g.IsApply(UseAt(g, u)) <==> u in d.applies) && (g.IsRead(UseAt(g, u)) <==> u in d.lookups))
    && d.applies <= d.sites && d.lookups <= d.sites
    && (forall u, w :: u in d.applies && w in d.applies ==> u == w)
    && (have <==> d.applies != {}) && (can <==> d.applies == {} && d.lookups == {}) && (d.applies == {} || d.lookups == {})
  }

  /** Uses dealt with have passed their value on, and the given values have all their uses dealt with. */
  ghost predicate Complete(g: UseGraph, seen: set<SsaValue>, d: Done, vs: set<SsaValue>) {
    && (forall u :: u in d.sites && IsSite(g, u) ==> PassedOn(g, seen, UseAt(g, u)))
    && (forall v :: v in vs ==> AllDone(g, d, v))
  }

  ghost predicate PassedOn(g: UseGraph, seen: set<SsaValue>, use: Use) {
    forall w :: w in g.Next(use) && g.TrackUseChain(w) ==> w in seen
  }

  ghost predicate AllDone(g: UseGraph, d: Done, v: SsaValue) {
    forall i: nat :: i < |g.Chain(v)| ==> (v, i) in d.sites
  }

  lemma {:induction false} RecordSite(g: UseGraph, start: SsaValue, seen: set<SsaValue>, d: Done, can: bool, have: bool, u: Site, can': bool, have': bool)
    requires Consistent(g, start, seen, d, can, have) && u.0 in seen && IsSite(g, u) && u !in d.sites && g.Allowed(UseAt(g, u))
    requires if g.IsApply(UseAt(g, u)) then can && !can' && have'
             else if g.IsRead(UseAt(g, u)) then !have && !can' && !have'
             else can' == can && have' == have
    ensures Consistent(g, start, seen, Add(g, d, u), can', have')
  {
  }

  /** A use that the flags rule out clashes with one dealt with before. */
  lemma {:induction false} Reject(g: UseGraph, start: SsaValue, seen: set<SsaValue>, d: Done, can: bool, have: bool, u: Site)
    requires Consistent(g, start, seen, d, can, have) && u.0 in seen && IsSite(g, u) && u !in d.sites
    requires !g.Allowed(UseAt(g, u)) || (g.IsApply(UseAt(g, u)) && !can) || (g.IsRead(UseAt(g, u)) && have)
    ensures !g.Harmless(start)
  {
  }

  lemma {:induction false} CompleteRecord(g: UseGraph, seen: set<SsaValue>, d: Done, vs: set<SsaValue>, u: Site)
    requires Complete(g, seen, d, vs) && IsSite(g, u) && PassedOn(g, seen, UseAt(g, u))
    ensures Complete(g, seen, Add(g, d, u), vs)
  {
  }

  lemma {:induction false} SmallerRest(all: set<SsaValue>, a: set<SsaValue>, b: set<SsaValue>)
    requires a <= b
    ensures |all - b| <= |all - a|
  {
    assert all - a == (all - b) + ((all - a) - (all - b));
  }

  /** What a search that found no reason for an arguments object has added: only sites of values it has newly seen. */
  ghost predicate Advanced(seen0: set<SsaValue>, d0: Done, seen: set<SsaValue>, d: Done) {
    && seen0 <= seen && d0.sites <= d.sites
    && forall u :: u in d.sites && u !in d0.sites ==> u.0 !in seen0
  }

  /** State of the search. */
  class Search {
    const g: UseGraph
    ghost const start: SsaValue
    var seen: set<SsaValue>
    var canOptimizeApply: bool
    var haveOptimizedApply: bool
    ghost var done: Done

    ghost predicate Valid(stack: set<SsaValue>)
      reads this
    {
      && Consistent(g, start, seen, done, canOptimizeApply, haveOptimizedApply)
      && Complete(g, seen, done, seen - stack) && stack <= seen
    }

    constructor (g: UseGraph, ghost start: SsaValue)
      ensures this.g == g && this.start == start && Valid({}) && seen == {}
    {
      this.g, this.start := g, start;
      seen, canOptimizeApply, haveOptimizedApply, done := {}, true, false, Done({}, {}, {});
    }

    /** The uses that do not pass the value on; `known` tells whether the use is one of them. */
    method LeafUse(v: SsaValue, i: nat, ghost stack: set<SsaValue>) returns (known: bool)
      requires Valid(stack) && v in stack && i < |g.Chain(v)| && (v, i) !in done.sites && g.Chain(v)[i].PopUse?
      modifies this`canOptimizeApply, this`haveOptimizedApply, this`done
      ensures Valid(stack) && done == if known then Add(g, old(done), (v, i)) else old(done)
      ensures !known && !g.OpAt(g.Chain(v)[i].offset).SetLocal? && !g.OpAt(g.Chain(v)[i].offset).GetLocal? ==> !g.Harmless(start)
    {
      var use := g.Chain(v)[i];
      var op := g.OpAt(use.offset);
      known := true;
      ghost var can, have := canOptimizeApply, haveOptimizedApply;
      if op.Pop? {
      } else if canOptimizeApply && op == FunApply(2) && use.which == 0 {
        haveOptimizedApply, canOptimizeApply := true, false;
      } else if !haveOptimizedApply && ((op.GetElem? && use.which == 1) || op.Length?) {
        canOptimizeApply := false;
      } else {
        known := false;
      }
      if known {
        RecordSite(g, start, seen, done, can, have, (v, i), canOptimizeApply, haveOptimizedApply);
        CompleteRecord(g, seen, done, seen - stack, (v, i));
        done := Add(g, done, (v, i));
      } else if !op.SetLocal? && !op.GetLocal? {
        Reject(g, start, seen, done, can, have, (v, i));
      }
    }

    /** `needsArgsObj` for one use; the values on the stack are still being searched. */
    method NeedsUse(v: SsaValue, i: nat, ghost stack: set<SsaValue>) returns (needs: bool)
      requires Valid(stack) && v in stack && i < |g.Chain(v)| && (v, i) !in done.sites
      modifies this`seen, this`canOptimizeApply, this`haveOptimizedApply, this`done
      ensures needs ==> !g.Harmless(start)
      ensures !needs ==> Valid(stack) && (v, i) in done.sites
      ensures !needs ==> Advanced(old(seen), Add(g, old(done), (v, i)), seen, done)
      decreases |g.uses.Keys - seen|, 3
    {
      var use := g.Chain(v)[i];
      if use.PhiUse? {
        needs := NeedsNext(v, i, [use.phi], stack);
        return;
      }
      var known := LeafUse(v, i, stack);
      if known {
        return false;
      }
      var op := g.OpAt(use.offset);
      if op.SetLocal? {
        if !g.TrackSlot(op.slot) {
          Reject(g, start, seen, done, canOptimizeApply, haveOptimizedApply, (v, i));
          return true;
        }
        needs := NeedsNext(v, i, [Pushed(use.offset, 0), Written(op.slot, use.offset)], stack);
        return;
      }
      if op.GetLocal? {
        needs := NeedsNext(v, i, [Pushed(use.offset, 0)], stack);
        return;
      }
      return true;
    }

    /** What a use of a value on the stack passes on may hold the arguments object. */
    lemma {:induction false} PassesOn(v: SsaValue, i: nat, w: SsaValue, stack: set<SsaValue>)
      requires Valid(stack) && v in stack && i < |g.Chain(v)| && w in g.Next(g.Chain(v)[i]) && g.TrackUseChain(w)
      ensures g.MayHold(start, w)
    {
      assert g.UseOf(start, v, i);
      HoldsStep(g, start, v, i, w);
    }

    /** The values that a use passes on, in turn. */
    method NeedsNext(v: SsaValue, i: nat, next: seq<SsaValue>, ghost stack: set<SsaValue>) returns (needs: bool)
      requires Valid(stack) && v in stack && i < |g.Chain(v)| && (v, i) !in done.sites
      requires next == g.Next(g.Chain(v)[i]) && |next| > 0 && g.Allowed(g.Chain(v)[i])
      modifies this`seen, this`canOptimizeApply, this`haveOptimizedApply, this`done
      ensures needs ==> !g.Harmless(start)
      ensures !needs ==> Valid(stack) && (v, i) in done.sites
      ensures !needs ==> Advanced(old(seen), Add(g, old(done), (v, i)), seen, done)
      decreases |g.uses.Keys - seen|, 2
    {
      hide Consistent, Complete;
      var k := 0;
      while k < |next|
        invariant 0 <= k <= |next| && Valid(stack) && Advanced(old(seen), old(done), seen, done)
        invariant forall l :: 0 <= l < k && g.TrackUseChain(next[l]) ==> next[l] in seen
      {
        SmallerRest(g.uses.Keys, old(seen), seen);
        if g.TrackUseChain(next[k]) {
          PassesOn(v, i, next[k], stack);
        }
        ghost var seen1, done1 := seen, done;
        needs := NeedsValue(next[k], stack);
        if needs {
          return;
        }
        AdvancedTrans(old(seen), old(done), seen1, done1, seen, done);
        k := k + 1;
      }
      needs := false;
      Deal((v, i), stack);
    }

    /** A use that passed its value on has been dealt with. */
    ghost method Deal(u: Site, stack: set<SsaValue>)
      requires Valid(stack) && u.0 in stack && IsSite(g, u) && u !in done.sites && g.Allowed(UseAt(g, u))
      requires PassedOn(g, seen, UseAt(g, u)) && !g.IsApply(UseAt(g, u)) && !g.IsRead(UseAt(g, u))
      modifies this`done
      ensures Valid(stack) && done == Add(g, old(done), u)
    {
      RecordSite(g, start, seen, done, canOptimizeApply, haveOptimizedApply, u, canOptimizeApply, haveOptimizedApply);
      CompleteRecord(g, seen, done, seen - stack, u);
      done := Add(g, done, u);
    }

    /** `needsArgsObj` for a value: search its use chain unless it was seen. */
    method NeedsValue(v: SsaValue, ghost stack: set<SsaValue>) returns (needs: bool)
      requires Valid(stack) && (g.TrackUseChain(v) ==> g.MayHold(start, v))
      modifies this`seen, this`canOptimizeApply, this`haveOptimizedApply, this`done
      ensures needs ==> !g.Harmless(start)
      ensures !needs ==> Valid(stack) && Advanced(old(seen), old(done), seen, done)
      ensures !needs ==> (g.TrackUseChain(v) ==> v in seen)
      decreases |g.uses.Keys - seen|, 1
    {
      if !g.TrackUseChain(v) || v in seen {
        return false;
      }
      seen := seen + {v};
      SeeValue(g, start, old(seen), done, canOptimizeApply, haveOptimizedApply, stack, v);
      needs := SearchChain(v, stack, old(seen));
    }

    /** The loop of `needsArgsObj` over the use chain of a value that is now seen. */
    method SearchChain(v: SsaValue, ghost stack: set<SsaValue>, ghost seen0: set<SsaValue>) returns (needs: bool)
      requires Valid(stack + {v}) && seen == seen0 + {v} && v !in seen0 && stack <= seen0
      requires forall u :: u in done.sites ==> u.0 in seen0
      modifies this`seen, this`canOptimizeApply, this`haveOptimizedApply, this`done
      ensures needs ==> !g.Harmless(start)
      ensures !needs ==> Valid(stack) && v in seen && Advanced(seen0, old(done), seen, done)
      decreases |g.uses.Keys - seen0|, 0
    {
      var chain := g.Chain(v);
      ghost var rest := g.uses.Keys - seen0;
      assert |chain| > 0 ==> g.uses.Keys - seen == rest - {v} && v in rest;
      var i := 0;
      while i < |chain|
        invariant 0 <= i <= |chain| && Valid(stack + {v}) && seen0 + {v} <= seen && Advanced(seen0, old(done), seen, done)
        invariant forall j: nat :: j < |chain| ==> ((v, j) in done.sites <==> j < i)
        invariant |chain| > 0 ==> |g.uses.Keys - seen| < |rest|
      {
        ghost var seen1, done1 := seen, done;
        needs := NeedsUse(v, i, stack + {v});
        if needs {
          return;
        }
        SmallerRest(g.uses.Keys, seen1, seen);
        AdvancedUse(g, seen0, old(done), seen1, done1, seen, done, v, i);
        i := i + 1;
      }
      needs := false;
      FinishValue(g, seen, done, stack, v);
    }
  }

  lemma {:induction false} AdvancedTrans(s0: set<SsaValue>, d0: Done, s1: set<SsaValue>, d1: Done, s2: set<SsaValue>, d2: Done)
    requires Advanced(s0, d0, s1, d1) && Advanced(s1, d1, s2, d2)
    ensures Advanced(s0, d0, s2, d2)
  {
  }

  lemma {:induction false} AdvancedUse(g: UseGraph, s0: set<SsaValue>, d0: Done, s1: set<SsaValue>, d1: Done, s2: set<SsaValue>, d2: Done, v: SsaValue, i: nat)
    requires Advanced(s0, d0, s1, d1) && i < |g.Chain(v)| && v in s1 && v !in s0 && Advanced(s1, Add(g, d1, (v, i)), s2, d2)
    ensures Advanced(s0, d0, s2, d2)
    ensures forall j: nat :: (v, j) in d2.sites <==> (v, j) in d1.sites || j == i
  {
  }

  /** A newly seen value goes on the stack. */
  lemma {:induction false} SeeValue(g: UseGraph, start: SsaValue, seen: set<SsaValue>, d: Done, can: bool, have: bool, stack: set<SsaValue>, v: SsaValue)
    requires Consistent(g, start, seen, d, can, have) && Complete(g, seen, d, seen - stack) && g.MayHold(start, v) && v !in seen
    ensures Consistent(g, start, seen + {v}, d, can, have)
    ensures Complete(g, seen + {v}, d, seen + {v} - (stack + {v}))
  {
  }

  /** A value whose uses are all dealt with comes off the stack. */
  lemma {:induction false} FinishValue(g: UseGraph, seen: set<SsaValue>, d: Done, stack: set<SsaValue>, v: SsaValue)
    requires Complete(g, seen, d, seen - (stack + {v})) && AllDone(g, d, v)
    ensures Complete(g, seen, d, seen - stack)
  {
  }

  /**
   The script needs its arguments object exactly when variables may be accessed
   in ways that are not tracked (dynamic names, aliased locals or a debugger), some
   use of a value that may be that object is not allowed, or an optimized apply is
   not the only use that looks at the arguments.
   */
  method NeedsArgsObj(g: UseGraph, argumentsOffset: nat, untracked: bool) returns (needs: bool)
    ensures needs <==> untracked || !g.Harmless(Pushed(argumentsOffset, 0))
  {
    if untracked {
      return true;
    }
    var start := Pushed(argumentsOffset, 0);
    var search := new Search(g, start);
    assert g.Holds(start, start, 0);
    needs := search.NeedsValue(start, {});
    if !needs {
      assert search.seen - {} == search.seen;
      SearchedHarmless(g, start, search.seen, search.done, search.canOptimizeApply, search.haveOptimizedApply);
    }
  }

  lemma {:induction false} SearchedHarmless(g: UseGraph, start: SsaValue, seen: set<SsaValue>, d: Done, can: bool, have: bool)
    requires Consistent(g, start, seen, d, can, have) && Complete(g, seen, d, seen) && start in seen
    ensures g.Harmless(start)
  {
    forall u, i: nat, w | u in seen && i < |g.Chain(u)| && w in g.Next(g.Chain(u)[i]) && g.TrackUseChain(w)
      ensures w in seen
    {
      assert AllDone(g, d, u);
      assert (u, i) in d.sites && IsSite(g, (u, i));
      assert PassedOn(g, seen, UseAt(g, (u, i)));
    }
    forall v, i: nat | g.UseOf(start, v, i)
      ensures (v, i) in d.sites
    {
      var n: nat :| g.Holds(start, v, n);
      ClosedHolds(g, start, seen, v, n);
      assert AllDone(g, d, v);
    }
    forall v, i: nat, w, j: nat | g.UseOf(start, v, i) && g.UseOf(start, w, j) && g.IsApply(g.Chain(v)[i])
                                  && (g.IsApply(g.Chain(w)[j]) || g.IsRead(g.Chain(w)[j]))
      ensures v == w && i == j
    {
      assert (v, i) in d.sites && UseAt(g, (v, i)) == g.Chain(v)[i];
      assert (w, j) in d.sites && UseAt(g, (w, j)) == g.Chain(w)[j];
    }
  }
}
