/**
 SSA values, phi nodes, and the transitive expansion of a value through phi
 options.
 */
module SsaValues {

  datatype SsaValue =
    | Empty
    | Pushed(offset: nat, index: nat)
    | Initial(slot: nat)
    | Written(slot: nat, offset: nat)
    | Phi(offset: nat, node: nat)

  /** The mutable part of a phi node; nodes are identified by their allocation index. */
  datatype PhiNode = PhiNode(slot: nat, options: seq<SsaValue>)

  datatype SlotValue = SlotValue(slot: nat, value: SsaValue)

  function Options(phis: seq<PhiNode>, w: SsaValue): seq<SsaValue> {
    if w.Phi? && w.node < |phis| then phis[w.node].options else []
  }

  /** The options with one more; duplicates are dropped among the first nine. */
  ghost function WithOption(options: seq<SsaValue>, v: SsaValue): (r: seq<SsaValue>)
    ensures v in r && options <= r && |r| <= |options| + 1
    ensures DistinctAtFirst(options) ==> DistinctAtFirst(r)
  {
    if |options| <= 8 && v in options then options
    else
      var r := options + [v];
      assert r[|options|] == v;
      r
  }

  ghost predicate DistinctAtFirst(options: seq<SsaValue>) {
    forall i, j :: 0 <= i < j < |options| && j < 9 ==> options[i] != options[j]
  }

  ghost predicate FlowsIn(phis: seq<PhiNode>, v: SsaValue, w: SsaValue, n: nat)
    decreases n
  {
    if n == 0 then v == w
    else exists u :: u in Options(phis, w) && FlowsIn(phis, v, u, n - 1)
  }

  /** v is in the transitive phi expansion of w. */
  ghost predicate Flows(phis: seq<PhiNode>, v: SsaValue, w: SsaValue) {
    exists n: nat :: FlowsIn(phis, v, w, n)
  }

  /** q is a later state of p: nodes are only added, and options only appended. */
  ghost predicate Grows(p: seq<PhiNode>, q: seq<PhiNode>) {
    && |p| <= |q|
    && forall i :: 0 <= i < |p| ==> p[i].slot == q[i].slot && p[i].options <= q[i].options
  }

  lemma {:induction false} FlowsRefl(phis: seq<PhiNode>, v: SsaValue)
    ensures Flows(phis, v, v)
  {
    assert FlowsIn(phis, v, v, 0);
  }

  lemma {:induction false} FlowsOption(phis: seq<PhiNode>, v: SsaValue, u: SsaValue, w: SsaValue)
    requires Flows(phis, v, u) && u in Options(phis, w)
    ensures Flows(phis, v, w)
  {
    var n: nat :| FlowsIn(phis, v, u, n);
    assert FlowsIn(phis, v, w, n + 1);
  }

  lemma {:induction false} FlowsTransIn(phis: seq<PhiNode>, a: SsaValue, b: SsaValue, c: SsaValue, n: nat)
    requires Flows(phis, a, b) && FlowsIn(phis, b, c, n)
    ensures Flows(phis, a, c)
    decreases n
  {
    if n != 0 {
      var u :| u in Options(phis, c) && FlowsIn(phis, b, u, n - 1);
      FlowsTransIn(phis, a, b, u, n - 1);
      FlowsOption(phis, a, u, c);
    }
  }

  lemma {:induction false} FlowsTrans(phis: seq<PhiNode>, a: SsaValue, b: SsaValue, c: SsaValue)
    requires Flows(phis, a, b) && Flows(phis, b, c)
    ensures Flows(phis, a, c)
  {
    var n: nat :| FlowsIn(phis, b, c, n);
    FlowsTransIn(phis, a, b, c, n);
  }

  lemma {:induction false} FlowsGrowIn(p: seq<PhiNode>, q: seq<PhiNode>, v: SsaValue, w: SsaValue, n: nat)
    requires Grows(p, q) && FlowsIn(p, v, w, n)
    ensures FlowsIn(q, v, w, n)
    decreases n
  {
    if n != 0 {
      var u :| u in Options(p, w) && FlowsIn(p, v, u, n - 1);
      FlowsGrowIn(p, q, v, u, n - 1);
      assert u in Options(q, w);
    }
  }

  lemma {:induction false} FlowGrows(p: seq<PhiNode>, q: seq<PhiNode>, v: SsaValue, w: SsaValue)
    requires Grows(p, q) && Flows(p, v, w)
    ensures Flows(q, v, w)
  {
    var n: nat :| FlowsIn(p, v, w, n);
    FlowsGrowIn(p, q, v, w, n);
  }

  /** What flows keeps flowing while phi nodes grow. */
  lemma {:induction false} FlowsGrow(p: seq<PhiNode>, q: seq<PhiNode>)
    requires Grows(p, q)
    ensures forall v, w :: Flows(p, v, w) ==> Flows(q, v, w)
  {
    forall v, w | Flows(p, v, w)
      ensures Flows(q, v, w)
    {
      FlowGrows(p, q, v, w);
    }
  }

  /** A property that passes from phi nodes to their options holds of a whole expansion. */
  lemma {:induction false} ExpansionHas(phis: seq<PhiNode>, has: SsaValue -> bool, v: SsaValue, w: SsaValue, n: nat)
    requires forall x, u :: has(x) && u in Options(phis, x) ==> has(u)
    requires has(w) && FlowsIn(phis, v, w, n)
    ensures has(v)
    decreases n
  {
    if n != 0 {
      var u :| u in Options(phis, w) && FlowsIn(phis, v, u, n - 1);
      ExpansionHas(phis, has, v, u, n - 1);
    }
  }
}
