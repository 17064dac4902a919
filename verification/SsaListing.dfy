/**
 The new values that the SSA pass lists at join points: at every operation the
 value of a variable is the last one listed there, or else the value after the
 operation before; and every phi node is listed once, at its own offset.
 */
module SsaListing {
  import opened Bytecode
  import opened SsaValues
  import opened SsaState

  /** The lists that are frozen, and the offset at which each phi node was created. */
  datatype Record = Record(frozen: map<nat, seq<SlotValue>>, created: seq<nat>)

  /** The values listed at an offset, frozen or still pending. */
  ghost function ListAt(st: State, rec: Record, t: nat): seq<SlotValue> {
    if t in rec.frozen then rec.frozen[t] else if t in st.pending then st.pending[t] else []
  }

  /** The last value listed for the slot, or the given one. */
  ghost function Lookup(list: seq<SlotValue>, s: nat, none: SsaValue): SsaValue
    decreases |list|
  {
    if |list| == 0 then none
    else if list[|list| - 1].slot == s then list[|list| - 1].value
    else Lookup(list[..|list| - 1], s, none)
  }

  ghost predicate DistinctSlots(list: seq<SlotValue>) {
    forall i, j :: 0 <= i < j < |list| ==> list[i].slot != list[j].slot
  }

  lemma {:induction false} LookupNone(list: seq<SlotValue>, s: nat, none: SsaValue)
    requires !HasEntry(list, s)
    ensures Lookup(list, s, none) == none
    decreases |list|
  {
    if |list| > 0 {
      var rest := list[..|list| - 1];
      forall i | 0 <= i < |rest|
        ensures rest[i].slot != s
      {
        assert list[i].slot != s;
      }
      LookupNone(rest, s, none);
    }
  }

  lemma {:induction false} LookupOnly(list: seq<SlotValue>, i: nat, none: SsaValue)
    requires DistinctSlots(list) && i < |list|
    ensures Lookup(list, list[i].slot, none) == list[i].value
    decreases |list|
  {
    var n := |list| - 1;
    if i < n {
      assert list[..n][i] == list[i];
      LookupOnly(list[..n], i, none);
    }
  }

  lemma {:induction false} LookupSnoc(list: seq<SlotValue>, e: SlotValue, s: nat, none: SsaValue)
    ensures Lookup(list + [e], s, none) == if e.slot == s then e.value else Lookup(list, s, none)
  {
    assert (list + [e])[..|list|] == list;
  }

  /** An entry after which none follows for its slot is the one that is found. */
  lemma {:induction false} LookupLast(list: seq<SlotValue>, i: nat, none: SsaValue)
    requires i < |list| && forall j :: i < j < |list| ==> list[j].slot != list[i].slot
    ensures Lookup(list, list[i].slot, none) == list[i].value
    decreases |list|
  {
    var n := |list| - 1;
    if i < n {
      assert list[..n][i] == list[i];
      LookupLast(list[..n], i, none);
    }
  }

  /** Replacing an entry that is not the last one for its slot changes nothing that is found. */
  lemma {:induction false} LookupSet(list: seq<SlotValue>, i: nat, r: SlotValue, s: nat, none: SsaValue)
    requires i < |list| && r.slot == list[i].slot && (r == list[i] || exists j :: i < j < |list| && list[j].slot == r.slot)
    ensures Lookup(list[i := r], s, none) == Lookup(list, s, none)
    decreases |list|
  {
    var n := |list| - 1;
    if r == list[i] {
      assert list[i := r] == list;
    } else {
      var j :| i < j < |list| && list[j].slot == r.slot;
      assert list[i := r][..n] == list[..n][i := r];
      if list[n].slot != s {
        if r.slot != s {
          LookupOther(list[..n], i, r, s, none);
        } else {
          assert list[..n][j] == list[j];
          LookupSet(list[..n], i, r, s, none);
        }
      }
    }
  }

  lemma {:induction false} LookupOther(list: seq<SlotValue>, i: nat, r: SlotValue, s: nat, none: SsaValue)
    requires i < |list| && r.slot == list[i].slot != s
    ensures Lookup(list[i := r], s, none) == Lookup(list, s, none)
    decreases |list|
  {
    var n := |list| - 1;
    if i < n {
      assert list[i := r][..n] == list[..n][i := r];
      if list[n].slot != s {
        LookupOther(list[..n], i, r, s, none);
      }
    } else {
      assert list[i := r][..n] == list[..n];
    }
  }

  ghost predicate Sized(c: Context, outs: map<nat, seq<SsaValue>>) {
    forall o :: o in outs ==> |outs[o]| == |c.tracked|
  }

  /** The values after the last executed operation before t, or the initial ones. */
  ghost function Before(c: Context, outs: map<nat, seq<SsaValue>>, t: nat): (r: seq<SsaValue>)
    requires Sized(c, outs)
    ensures |r| == |c.tracked|
  {
    if t == 0 then seq(|c.tracked|, s requires 0 <= s < |c.tracked| => Initial(s))
    else if t - 1 in outs then outs[t - 1]
    else Before(c, outs, t - 1)
  }

  lemma {:induction false} BeforeStays(c: Context, outs: map<nat, seq<SsaValue>>, outs': map<nat, seq<SsaValue>>, t: nat)
    requires Sized(c, outs) && Sized(c, outs')
    requires forall o :: o < t ==> (o in outs <==> o in outs') && (o in outs ==> outs[o] == outs'[o])
    ensures Before(c, outs, t) == Before(c, outs', t)
  {
    if t > 0 && t - 1 !in outs {
      BeforeStays(c, outs, outs', t - 1);
    }
  }

  // ------------------------------------------------------------------ phi nodes are listed once

  /** The entry holds a phi node of its own offset. */
  ghost predicate Own(e: SlotValue, t: nat) {
    e.value.Phi? && e.value.offset == t
  }

  /** The phi nodes of offset t in its list were created there, and none is listed twice. */
  ghost predicate Owned(list: seq<SlotValue>, t: nat, created: seq<nat>) {
    && (forall i :: 0 <= i < |list| && Own(list[i], t) ==> list[i].value.node < |created| && created[list[i].value.node] == t)
    && (forall i, j :: 0 <= i < j < |list| && Own(list[i], t) && Own(list[j], t) ==> list[i].value != list[j].value)
  }

  ghost predicate ListsNode(list: seq<SlotValue>, t: nat, n: nat) {
    exists i :: 0 <= i < |list| && list[i].value == Phi(t, n)
  }

  ghost predicate NodeListed(st: State, rec: Record, n: nat)
    requires n < |rec.created|
  {
    ListsNode(ListAt(st, rec, rec.created[n]), rec.created[n], n)
  }

  ghost predicate NodesOk(st: State, rec: Record) {
    && |rec.created| == |st.phis|
    && (forall t: nat :: Owned(ListAt(st, rec, t), t, rec.created))
    && (forall n :: 0 <= n < |rec.created| ==> NodeListed(st, rec, n))
  }

  /** If r replaces entry e pending at the offset, it is a phi node created there, and e was not one. */
  ghost predicate Renewed(before: nat, after: nat, offset: nat, e: SlotValue, r: SlotValue) {
    if r == e then after == before
    else after == before + 1 && r.value == Phi(offset, before) && !Own(e, offset)
  }

  ghost function Renew(rec: Record, offset: nat, e: SlotValue, r: SlotValue): Record {
    if r == e then rec else rec.(created := rec.created + [offset])
  }

  /** List l' is l, possibly with an entry for s at the end that is no phi node of offset t. */
  ghost predicate Extended(l: seq<SlotValue>, l': seq<SlotValue>, t: nat) {
    l' == l || exists e :: !Own(e, t) && !HasEntry(l, e.slot) && l' == l + [e]
  }

  lemma {:induction false} ExtendedOwned(l: seq<SlotValue>, l': seq<SlotValue>, t: nat, created: seq<nat>)
    requires Extended(l, l', t) && Owned(l, t, created)
    ensures Owned(l', t, created) && (DistinctSlots(l) ==> DistinctSlots(l'))
  {
  }

  lemma {:induction false} ExtendedLists(l: seq<SlotValue>, l': seq<SlotValue>, t: nat, n: nat)
    requires Extended(l, l', t) && ListsNode(l, t, n)
    ensures ListsNode(l', t, n)
  {
    var i :| 0 <= i < |l| && l[i].value == Phi(t, n);
    assert l'[i] == l[i];
  }

  lemma {:induction false} OwnedGrows(list: seq<SlotValue>, t: nat, created: seq<nat>, offset: nat)
    requires Owned(list, t, created)
    ensures Owned(list, t, created + [offset])
  {
  }

  /** Lists that are extended only by values from elsewhere keep the phi nodes listed. */
  lemma {:induction false} ExtendNodes(st: State, rec: Record, st': State)
    requires NodesOk(st, rec) && |st'.phis| == |st.phis|
    requires forall t: nat :: Extended(ListAt(st, rec, t), ListAt(st', rec, t), t)
    ensures NodesOk(st', rec)
  {
    forall t: nat
      ensures Owned(ListAt(st', rec, t), t, rec.created)
    {
      ExtendedOwned(ListAt(st, rec, t), ListAt(st', rec, t), t, rec.created);
    }
    forall n | 0 <= n < |rec.created|
      ensures NodeListed(st', rec, n)
    {
      assert NodeListed(st, rec, n);
      ExtendedLists(ListAt(st, rec, rec.created[n]), ListAt(st', rec, rec.created[n]), rec.created[n], n);
    }
  }

  /** A list in which a new phi node of the offset replaces an entry that is none. */
  lemma {:induction false} ReplaceOwned(list: seq<SlotValue>, offset: nat, i: nat, r: SlotValue, created: seq<nat>)
    requires Owned(list, offset, created) && i < |list| && r.value == Phi(offset, |created|)
    ensures Owned(list[i := r], offset, created + [offset])
  {
  }

  lemma {:induction false} ReplaceLists(list: seq<SlotValue>, offset: nat, i: nat, r: SlotValue, n: nat)
    requires ListsNode(list, offset, n) && i < |list| && !Own(list[i], offset)
    ensures ListsNode(list[i := r], offset, n)
  {
    var j :| 0 <= j < |list| && list[j].value == Phi(offset, n);
    assert list[i := r][j] == list[j];
  }

  /** Replacing an entry by a new phi node lists that node once. */
  lemma {:induction false} ReplaceNodes(st: State, rec: Record, offset: nat, i: nat, r: SlotValue, st': State)
    requires NodesOk(st, rec) && offset in st.pending && offset !in rec.frozen && i < |st.pending[offset]|
    requires Renewed(|st.phis|, |st'.phis|, offset, st.pending[offset][i], r)
    requires st'.pending == st.pending[offset := st.pending[offset][i := r]]
    ensures NodesOk(st', Renew(rec, offset, st.pending[offset][i], r))
  {
    var list := st.pending[offset];
    if r == list[i] {
      assert list[i := r] == list;
      assert st'.pending == st.pending;
      ExtendNodes(st, rec, st');
    } else {
      assert ListAt(st, rec, offset) == list;
      ReplaceOwned(list, offset, i, r, rec.created);
      assert list[i := r][i] == r;
      NewNode(st, rec, offset, r, st');
      forall n | 0 <= n < |rec.created| && rec.created[n] == offset
        ensures ListsNode(list[i := r], offset, n)
      {
        assert NodeListed(st, rec, n);
        ReplaceLists(list, offset, i, r, n);
      }
      NewNodeListed(st, rec, offset, r, st');
    }
  }

  /** A phi node created at the offset, in a list that is otherwise like before. */
  lemma {:induction false} NewNode(st: State, rec: Record, offset: nat, r: SlotValue, st': State)
    requires NodesOk(st, rec) && |st'.phis| == |st.phis| + 1
    requires forall t: nat :: t != offset ==> ListAt(st', rec, t) == ListAt(st, rec, t)
    requires Owned(ListAt(st', rec, offset), offset, rec.created + [offset])
    ensures var rec' := rec.(created := rec.created + [offset]);
            |rec'.created| == |st'.phis| && forall t: nat :: Owned(ListAt(st', rec', t), t, rec'.created)
  {
    var rec' := rec.(created := rec.created + [offset]);
    forall t: nat
      ensures Owned(ListAt(st', rec', t), t, rec'.created)
    {
      assert ListAt(st', rec', t) == ListAt(st', rec, t);
      if t != offset {
        OwnedGrows(ListAt(st, rec, t), t, rec.created, offset);
      }
    }
  }

  lemma {:induction false} NewNodeListed(st: State, rec: Record, offset: nat, r: SlotValue, st': State)
    requires NodesOk(st, rec)
    requires forall t: nat :: t != offset ==> ListAt(st', rec, t) == ListAt(st, rec, t)
    requires forall n :: 0 <= n < |rec.created| && rec.created[n] == offset ==> ListsNode(ListAt(st', rec, offset), offset, n)
    requires r in ListAt(st', rec, offset) && r.value == Phi(offset, |rec.created|)
    ensures var rec' := rec.(created := rec.created + [offset]);
            forall n :: 0 <= n < |rec'.created| ==> NodeListed(st', rec', n)
  {
    var rec' := rec.(created := rec.created + [offset]);
    forall n | 0 <= n < |rec'.created|
      ensures NodeListed(st', rec', n)
    {
      var t := rec'.created[n];
      assert ListAt(st', rec', t) == ListAt(st', rec, t);
      if n < |rec.created| {
        assert NodeListed(st, rec, n);
      }
    }
  }

  /** Appending an entry with a new phi node lists that node once. */
  lemma {:induction false} AppendNodes(st: State, rec: Record, offset: nat, r: SlotValue, st': State)
    requires NodesOk(st, rec) && offset in st.pending && offset !in rec.frozen
    requires |st'.phis| == |st.phis| + 1 && r.value == Phi(offset, |st.phis|)
    requires st'.pending == st.pending[offset := st.pending[offset] + [r]]
    ensures NodesOk(st', rec.(created := rec.created + [offset]))
  {
    var list := st.pending[offset];
    assert ListAt(st, rec, offset) == list;
    OwnedGrows(list, offset, rec.created, offset);
    assert Owned(list + [r], offset, rec.created + [offset]);
    assert (list + [r])[|list|] == r;
    NewNode(st, rec, offset, r, st');
    forall n | 0 <= n < |rec.created| && rec.created[n] == offset
      ensures ListsNode(list + [r], offset, n)
    {
      assert NodeListed(st, rec, n);
      var i :| 0 <= i < |list| && list[i].value == Phi(offset, n);
      assert (list + [r])[i] == list[i];
    }
    NewNodeListed(st, rec, offset, r, st');
  }

  // ------------------------------------------------------------------ the invariant of the pass

  /** Some operation before t jumps to it. */
  ghost predicate JumpedTo(c: Context, t: nat) {
    exists o: nat :: o < t && o < |c.code| && o < |c.reached| && c.reached[o] && JumpEdge(c.code, o, t)
  }

  /** Each slot is listed once, except at a loop head that is the target of a jump from before it. */
  ghost predicate ListedOnce(c: Context, list: seq<SlotValue>, t: nat) {
    DistinctSlots(list) || (t in c.loops && JumpedTo(c, t))
  }

  /** The values are those of the list, the last one for each slot, and for other slots those in `before`. */
  ghost predicate Matches(c: Context, values: seq<SsaValue>, list: seq<SlotValue>, before: seq<SsaValue>)
    requires |values| == |before| == |c.tracked|
  {
    forall s: nat :: c.Track(s) ==> values[s] == Lookup(list, s, before[s])
  }

  /** What the lists say about the values at offset t. */
  ghost predicate ValuesListed(c: Context, st: State, rec: Record, t: nat)
    requires Sized(c, st.outs) && t in st.ins
  {
    && |st.ins[t]| == |c.tracked|
    && Matches(c, st.ins[t], ListAt(st, rec, t), Before(c, st.outs, t))
    && ListedOnce(c, ListAt(st, rec, t), t)
  }

  /** The offsets before cur have been entered, and the loops that end before lim closed. */
  ghost predicate KeysOk(c: Context, st: State, rec: Record, cur: nat, lim: nat) {
    && (forall t :: t in rec.frozen ==> t < cur && t !in st.pending)
    && (forall t :: t in st.pending && t < cur ==> t in c.loops && lim <= c.loops[t])
    && (forall t :: t in st.pending && t >= cur ==> DistinctSlots(st.pending[t]))
    && (forall t :: t in st.ins ==> t < cur)
  }

  ghost predicate ListsOk(c: Context, st: State, rec: Record, cur: nat, lim: nat) {
    && Sized(c, st.outs) && NodesOk(st, rec) && KeysOk(c, st, rec, cur, lim)
    && forall t :: t in st.ins ==> ValuesListed(c, st, rec, t)
  }

  /** The current values are those after the last operation before cur. */
  ghost predicate ValuesBefore(c: Context, st: State, cur: nat) {
    && Sized(c, st.outs) && |st.values| == |c.tracked|
    && forall s: nat :: c.Track(s) ==> st.values[s] == Before(c, st.outs, cur)[s]
  }

  /** Changes to the lists of later offsets that only append values from elsewhere. */
  lemma {:induction false} ListsExtended(c: Context, st: State, rec: Record, st': State, cur: nat, lim: nat)
    requires ListsOk(c, st, rec, cur, lim) && |st'.phis| == |st.phis| && st'.pending.Keys == st.pending.Keys
    requires forall t: nat :: Extended(ListAt(st, rec, t), ListAt(st', rec, t), t)
    requires forall t: nat :: t < cur ==> ListAt(st', rec, t) == ListAt(st, rec, t)
    requires st'.ins == st.ins && st'.outs == st.outs
    ensures ListsOk(c, st', rec, cur, lim)
  {
    ExtendNodes(st, rec, st');
    forall t: nat | t in st'.pending && t >= cur
      ensures DistinctSlots(st'.pending[t])
    {
      assert Extended(ListAt(st, rec, t), ListAt(st', rec, t), t);
    }
    forall t | t in st'.ins
      ensures ValuesListed(c, st', rec, t)
    {
      assert ValuesListed(c, st, rec, t);
    }
  }

  /** Marking a slot's value at the targets beyond the cut appends it to lists that have none for the slot. */
  lemma {:induction false} AssignExtends(st: State, rec: Record, s: nat, v: SsaValue, cut: int, st': State)
    requires s < |st.values| == |st.branchSize| && st' == Assign(st, s, v, cut)
    requires forall t :: t in rec.frozen ==> t !in st.pending
    requires forall t :: t in st.pending && t > cut && t in st.branchTargets ==>
               HasEntry(st.pending[t], s) || !Own(SlotValue(s, st.values[s]), t)
    ensures forall t: nat :: Extended(ListAt(st, rec, t), ListAt(st', rec, t), t)
    ensures forall t: nat :: t <= cut ==> ListAt(st', rec, t) == ListAt(st, rec, t)
    ensures st'.pending.Keys == st.pending.Keys
  {
    forall t: nat
      ensures Extended(ListAt(st, rec, t), ListAt(st', rec, t), t)
      ensures t <= cut ==> ListAt(st', rec, t) == ListAt(st, rec, t)
    {
      if t in st.pending {
        MarkedAt(st, s, v, cut, t, st');
        if t in st.branchTargets && t > cut && !HasEntry(st.pending[t], s) {
          assert !Own(SlotValue(s, st.values[s]), t);
        }
      }
    }
  }

  /** Assigning a slot at the offset. */
  lemma {:induction false} AssignLists(c: Context, st: State, rec: Record, s: nat, v: SsaValue, offset: nat, cur: nat, st': State)
    requires ListsOk(c, st, rec, cur, offset) && s < |st.values| == |st.branchSize| && st' == Assign(st, s, v, offset)
    requires cur <= offset + 1 && (st.values[s].Phi? ==> st.values[s].offset <= offset)
    ensures ListsOk(c, st', rec, cur, offset)
  {
    AssignExtends(st, rec, s, v, offset, st');
    ListsExtended(c, st, rec, st', cur, offset);
  }

  /** A change that leaves the lists and the number of phi nodes as they are. */
  lemma {:induction false} ListsSame(c: Context, st: State, rec: Record, st': State, cur: nat, lim: nat)
    requires ListsOk(c, st, rec, cur, lim) && |st'.phis| == |st.phis| && st'.pending == st.pending
    requires st'.ins == st.ins && st'.outs == st.outs
    ensures ListsOk(c, st', rec, cur, lim)
  {
    assert forall t: nat :: ListAt(st', rec, t) == ListAt(st, rec, t);
    ListsExtended(c, st, rec, st', cur, lim);
  }

  /** Replacing an entry pending at t by its merged one; it is not what is found at t if t has been entered. */
  lemma {:induction false} ListsReplaced(c: Context, st: State, rec: Record, t: nat, i: nat, r: SlotValue, st': State, cur: nat, lim: nat)
    requires ListsOk(c, st, rec, cur, lim) && t in st.pending && i < |st.pending[t]| && r.slot == st.pending[t][i].slot
    requires Renewed(|st.phis|, |st'.phis|, t, st.pending[t][i], r)
    requires t < cur ==> r == st.pending[t][i] || exists j :: i < j < |st.pending[t]| && st.pending[t][j].slot == r.slot
    requires st'.pending == st.pending[t := st.pending[t][i := r]] && st'.ins == st.ins && st'.outs == st.outs
    ensures ListsOk(c, st', Renew(rec, t, st.pending[t][i], r), cur, lim)
  {
    var list, rec' := st.pending[t], Renew(rec, t, st.pending[t][i], r);
    ReplaceNodes(st, rec, t, i, r, st');
    assert DistinctSlots(list) ==> DistinctSlots(list[i := r]);
    forall u | u in st'.ins
      ensures ValuesListed(c, st', rec', u)
    {
      assert ValuesListed(c, st, rec, u);
      if u == t {
        assert ListAt(st, rec, u) == list && ListAt(st', rec', u) == list[i := r];
        forall s: nat | c.Track(s)
          ensures Lookup(list[i := r], s, Before(c, st.outs, u)[s]) == Lookup(list, s, Before(c, st.outs, u)[s])
        {
          LookupSet(list, i, r, s, Before(c, st.outs, u)[s]);
        }
      } else {
        assert ListAt(st', rec', u) == ListAt(st, rec, u);
      }
    }
  }

  /** Freezing a list changes nothing of what is listed. */
  lemma {:induction false} ListsFrozen(c: Context, st: State, rec: Record, t: nat, st': State, rec': Record, cur: nat, cur': nat, lim: nat)
    requires ListsOk(c, st, rec, cur, lim) && t in st.pending && t < cur' && cur <= cur'
    requires forall u :: u in st.pending && cur <= u < cur' ==> u == t
    requires st'.pending == st.pending - {t} && |st'.phis| == |st.phis| && st'.ins == st.ins && st'.outs == st.outs
    requires rec'.created == rec.created
    requires rec'.frozen == if st.pending[t] == [] then rec.frozen else rec.frozen[t := st.pending[t]]
    ensures ListsOk(c, st', rec', cur', lim) && ListAt(st', rec', t) == st.pending[t]
  {
    FrozenNodes(st, rec, t, st', rec');
    forall u | u in st'.ins
      ensures ValuesListed(c, st', rec', u)
    {
      assert ValuesListed(c, st, rec, u);
    }
  }

  lemma {:induction false} FrozenNodes(st: State, rec: Record, t: nat, st': State, rec': Record)
    requires NodesOk(st, rec) && t in st.pending && t !in rec.frozen
    requires st'.pending == st.pending - {t} && |st'.phis| == |st.phis| && rec'.created == rec.created
    requires rec'.frozen == if st.pending[t] == [] then rec.frozen else rec.frozen[t := st.pending[t]]
    ensures NodesOk(st', rec') && forall u: nat :: ListAt(st', rec', u) == ListAt(st, rec, u)
  {
    assert forall u: nat :: ListAt(st', rec', u) == ListAt(st, rec, u);
    assert forall u: nat :: Owned(ListAt(st, rec, u), u, rec.created) ==> Owned(ListAt(st', rec', u), u, rec'.created);
    forall n | 0 <= n < |rec'.created|
      ensures NodeListed(st', rec', n)
    {
      assert NodeListed(st, rec, n);
    }
  }

  /** Nothing is pending at an offset, or it is the head of a loop: its list stays as it is. */
  lemma {:induction false} ListsPassed(c: Context, st: State, rec: Record, offset: nat, cur: nat)
    requires ListsOk(c, st, rec, offset, offset) && cur == offset + 1
    requires offset in st.pending ==> offset in c.loops && offset <= c.loops[offset]
    ensures ListsOk(c, st, rec, cur, offset) && offset !in rec.frozen && offset !in st.ins
  {
  }

  /** The loop that ends at the offset is closed. */
  lemma {:induction false} ListsClosed(c: Context, st: State, rec: Record, offset: nat, cur: nat)
    requires c.Valid() && ListsOk(c, st, rec, cur, offset) && cur == offset + 1
    requires forall t: nat :: JumpEdge(c.code, offset, t) && t <= offset ==> t !in st.pending
    ensures ListsOk(c, st, rec, cur, cur)
  {
    hide NodesOk, ValuesListed, ReachClosed;
  }

  /** An offset that is not reached. */
  lemma {:induction false} ListsSkipped(c: Context, st: State, rec: Record, offset: nat, cur: nat)
    requires c.Valid() && ListsOk(c, st, rec, offset, offset) && ValuesBefore(c, st, offset) && cur == offset + 1
    requires offset < |c.code| && !c.reached[offset] && offset !in st.pending && offset !in st.outs
    ensures ListsOk(c, st, rec, cur, cur) && ValuesBefore(c, st, cur)
  {
    ListsPassed(c, st, rec, offset, cur);
  }

  /** A first jump to a target lists nothing there. */
  lemma {:induction false} ListsOpened(c: Context, st: State, rec: Record, t: nat, st': State, cur: nat, lim: nat)
    requires ListsOk(c, st, rec, cur, lim) && t !in st.pending && t >= cur
    requires st'.pending == st.pending[t := []] && |st'.phis| == |st.phis| && st'.ins == st.ins && st'.outs == st.outs
    ensures ListsOk(c, st', rec, cur, lim)
  {
    assert forall u: nat :: ListAt(st', rec, u) == ListAt(st, rec, u);
    ExtendNodes(st, rec, st');
    forall u | u in st'.ins
      ensures ValuesListed(c, st', rec, u)
    {
      assert ValuesListed(c, st, rec, u);
    }
  }

  lemma {:induction false} ListedStays(c: Context, st: State, rec: Record, st': State, t: nat)
    requires Sized(c, st.outs) && t in st.ins && ValuesListed(c, st, rec, t) && Sized(c, st'.outs)
    requires t in st'.ins && st'.ins[t] == st.ins[t] && ListAt(st', rec, t) == ListAt(st, rec, t)
    requires Before(c, st'.outs, t) == Before(c, st.outs, t)
    ensures ValuesListed(c, st', rec, t)
  {
  }

  /** The values at the offset are recorded. */
  lemma {:induction false} ListsEntered(c: Context, st: State, rec: Record, offset: nat, cur: nat, st': State)
    requires ListsOk(c, st, rec, cur, offset) && st' == RecordIn(st, offset) && |st.values| == |c.tracked| && cur == offset + 1
    requires Matches(c, st.values, ListAt(st, rec, offset), Before(c, st.outs, offset)) && ListedOnce(c, ListAt(st, rec, offset), offset)
    ensures ListsOk(c, st', rec, cur, offset)
  {
    ListsKept(c, st, rec, st');
    ListedHere(c, st, rec, offset, st');
    forall u | u in st'.ins && u != offset
      ensures ValuesListed(c, st', rec, u)
    {
      ListedStays(c, st, rec, st', u);
    }
  }

  lemma {:induction false} ListedHere(c: Context, st: State, rec: Record, offset: nat, st': State)
    requires Sized(c, st.outs) && |st.values| == |c.tracked| && ListAt(st', rec, offset) == ListAt(st, rec, offset)
    requires Matches(c, st.values, ListAt(st, rec, offset), Before(c, st.outs, offset)) && ListedOnce(c, ListAt(st, rec, offset), offset)
    requires st'.outs == st.outs && offset in st'.ins && st'.ins[offset] == st.values
    ensures ValuesListed(c, st', rec, offset)
  {
  }

  lemma {:induction false} ListsKept(c: Context, st: State, rec: Record, st': State)
    requires NodesOk(st, rec) && st'.pending == st.pending && |st'.phis| == |st.phis|
    ensures NodesOk(st', rec) && forall u: nat :: ListAt(st', rec, u) == ListAt(st, rec, u)
  {
    ExtendNodes(st, rec, st');
  }

  /** The values after the operation at the offset are recorded. */
  lemma {:induction false} ListsLeft(c: Context, st: State, rec: Record, offset: nat, st': State, cur: nat, lim: nat)
    requires ListsOk(c, st, rec, cur, lim) && st' == RecordOut(st, offset) && |st.values| == |c.tracked| && cur == offset + 1
    ensures ListsOk(c, st', rec, cur, lim) && ValuesBefore(c, st', cur)
  {
    hide NodesOk, Matches, ListedOnce;
    ListsKept(c, st, rec, st');
    forall u | u in st'.ins
      ensures ValuesListed(c, st', rec, u)
    {
      BeforeStays(c, st.outs, st'.outs, u);
      ListedStays(c, st, rec, st', u);
    }
  }

  // ------------------------------------------------------------------ joins

  /** The first i entries pending at the offset have been taken over. */
  ghost predicate Taken(st: State, offset: nat, i: nat)
    requires offset in st.pending
  {
    forall j :: 0 <= j < i && j < |st.pending[offset]| && st.pending[offset][j].slot < |st.values| ==>
      st.values[st.pending[offset][j].slot] == st.pending[offset][j].value
  }

  lemma {:induction false} TakeLists(c: Context, st: State, rec: Record, phis: seq<PhiNode>, offset: nat, i: nat, r: SlotValue, cut: int, st': State)
    requires ListsOk(c, st, rec, offset, offset) && offset in st.pending && i < |st.pending[offset]| && offset <= cut + 1 <= offset + 1
    requires r.slot == st.pending[offset][i].slot < |st.values| == |st.branchSize|
    requires Renewed(|st.phis|, |phis|, offset, st.pending[offset][i], r)
    requires st.values[r.slot].Phi? ==> st.values[r.slot].offset <= offset
    requires Taken(st, offset, i) && st' == TakeEntry(st, phis, offset, i, r, cut)
    ensures ListsOk(c, st', Renew(rec, offset, st.pending[offset][i], r), offset, offset) && Taken(st', offset, i + 1)
  {
    var st1 := SetEntry(st.(phis := phis), offset, i, r);
    var rec' := Renew(rec, offset, st.pending[offset][i], r);
    ListsReplaced(c, st, rec, offset, i, r, st1, offset, offset);
    assert HasEntry(st1.pending[offset], r.slot) by { assert st1.pending[offset][i].slot == r.slot; }
    AssignExtends(st1, rec', r.slot, r.value, cut, st');
    ListsExtended(c, st1, rec', st', offset, offset);
    TakenAt(st, phis, offset, i, r, cut);
    assert DistinctSlots(st.pending[offset]);
  }

  /** When all entries are taken over, the values are those listed. */
  lemma {:induction false} TakenMatches(c: Context, st: State, list: seq<SlotValue>, before: seq<SsaValue>)
    requires |st.values| == |before| == |c.tracked| && DistinctSlots(list)
    requires forall j :: 0 <= j < |list| && list[j].slot < |st.values| ==> st.values[list[j].slot] == list[j].value
    requires forall s: nat :: c.Track(s) ==> HasEntry(list, s) || st.values[s] == before[s]
    ensures Matches(c, st.values, list, before)
  {
    forall s: nat | c.Track(s)
      ensures st.values[s] == Lookup(list, s, before[s])
    {
      if i :| 0 <= i < |list| && list[i].slot == s {
        LookupOnly(list, i, before[s]);
      } else {
        LookupNone(list, s, before[s]);
      }
    }
  }

  lemma {:induction false} JoinMatches(c: Context, start: State, st: State, offset: nat, n: nat, cut: int, fall: bool)
    requires Progress(c, start, st, offset, n, cut, fall) && n == |st.pending[offset]| && DistinctSlots(st.pending[offset])
    requires Taken(st, offset, n)
    ensures |st.values| == |start.values| == |c.tracked| && Matches(c, st.values, st.pending[offset], start.values)
  {
    var list := st.pending[offset];
    assert start.pending[offset][..n] == start.pending[offset];
    SameSlots(start.pending[offset], list);
    TakenMatches(c, st, list, start.values);
  }

  /** Entry i pending at the offset is merged and taken over, at a join or a loop head. */
  lemma {:induction false} NextTaken(c: Context, start: State, st: State, rec: Record, offset: nat, i: nat, r: SlotValue, cut: int, fall: bool,
                                     st': State, rec': Record)
    requires Progress(c, start, st, offset, i, cut, fall) && i < |st.pending[offset]| && cut <= offset
    requires EntryTaken(c, st, st', offset, i, r, fall, cut)
    requires ListsOk(c, st, rec, offset, offset) && Taken(st, offset, i)
    requires Renewed(|st.phis|, |st'.phis|, offset, st.pending[offset][i], r)
    requires rec' == Renew(rec, offset, st.pending[offset][i], r)
    ensures Progress(c, start, st', offset, i + 1, cut, fall)
    ensures ListsOk(c, st', rec', offset, offset) && Taken(st', offset, i + 1)
  {
    ProgressStep(c, start, st, offset, i, r, cut, fall, st');
    TakeLists(c, st, rec, st'.phis, offset, i, r, cut, st');
  }

  /** What holds once the values that come in at the offset are merged, relative to those before. */
  ghost predicate Merging(c: Context, before: seq<SsaValue>, st: State, rec: Record, offset: nat) {
    && ListsOk(c, st, rec, offset + 1, offset) && |st.values| == |before| == |c.tracked|
    && Matches(c, st.values, ListAt(st, rec, offset), before) && ListedOnce(c, ListAt(st, rec, offset), offset)
  }

  /** A join is done: its list is frozen. */
  lemma {:induction false} JoinDone(c: Context, start: State, st: State, rec: Record, offset: nat, n: nat, fall: bool, st': State, rec': Record)
    requires Inv(c, start, offset - 1, offset)
    requires Progress(c, start, st, offset, n, offset, fall) && n == |start.pending[offset]|
    requires ListsOk(c, st, rec, offset, offset) && Taken(st, offset, n)
    requires st' == st.(pending := st.pending - {offset}) && rec'.created == rec.created
    requires rec'.frozen == if st.pending[offset] == [] then rec.frozen else rec.frozen[offset := st.pending[offset]]
    ensures Inv(c, st', offset, offset) && Dated(c, st', offset, offset)
    ensures Received(c, st', offset, start.values, fall) && Merging(c, start.values, st', rec', offset)
  {
    ProgressDone(c, start, st, offset, n, offset, fall);
    JoinMatches(c, start, st, offset, n, offset, fall);
    DropPending(c, st, offset);
    ListsFrozen(c, st, rec, offset, st', rec', offset, offset + 1, offset);
  }

  /** No join: the values are those before. */
  lemma {:induction false} NoJoinDone(c: Context, st: State, rec: Record, offset: nat)
    requires ListsOk(c, st, rec, offset, offset) && offset !in st.pending && |st.values| == |c.tracked|
    ensures Merging(c, st.values, st, rec, offset)
  {
    ListsPassed(c, st, rec, offset, offset + 1);
    forall s: nat | c.Track(s)
      ensures st.values[s] == Lookup([], s, st.values[s])
    {
    }
  }

  /** The merged values are recorded as those before the operation. */
  lemma {:induction false} MergingEntered(c: Context, start: State, st: State, rec: Record, offset: nat, st': State)
    requires Merging(c, start.values, st, rec, offset) && ValuesBefore(c, start, offset) && start.outs == st.outs
    requires st' == RecordIn(st, offset)
    ensures ListsOk(c, st', rec, offset + 1, offset)
  {
    MatchesBefore(c, st.values, ListAt(st, rec, offset), start.values, Before(c, st.outs, offset));
    ListsEntered(c, st, rec, offset, offset + 1, st');
  }

  lemma {:induction false} MatchesBefore(c: Context, values: seq<SsaValue>, list: seq<SlotValue>, before: seq<SsaValue>, before': seq<SsaValue>)
    requires |values| == |before| == |before'| == |c.tracked| && Matches(c, values, list, before)
    requires forall s: nat :: c.Track(s) ==> before[s] == before'[s]
    ensures Matches(c, values, list, before')
  {
  }

  // ------------------------------------------------------------------ loop heads

  /** Entries for slots that the loop writes hold its loop phis. */
  ghost predicate LoopPhis(c: Context, st: State, offset: nat, i: nat)
    requires offset in st.pending && offset in c.loops
  {
    forall j :: 0 <= j < i && j < |st.pending[offset]| && st.pending[offset][j].slot < |st.values|
                && c.WrittenIn(offset, st.pending[offset][j].slot) ==>
      Own(SlotValue(st.pending[offset][j].slot, st.values[st.pending[offset][j].slot]), offset)
  }

  lemma {:induction false} LoopPhisStep(c: Context, st: State, st': State, offset: nat, i: nat, r: SlotValue)
    requires offset in c.loops && offset in st.pending && LoopPhis(c, st, offset, i) && i < |st.pending[offset]|
    requires DistinctSlots(st.pending[offset]) && r.slot == st.pending[offset][i].slot < |st.values|
    requires offset in st'.pending && st'.pending[offset] == st.pending[offset][i := r] && st'.values == st.values[r.slot := r.value]
    requires c.WrittenIn(offset, r.slot) ==> Own(r, offset)
    ensures LoopPhis(c, st', offset, i + 1)
  {
  }

  /** A loop head is being entered, with its list pending. */
  ghost predicate HeadOpen(c: Context, st: State, rec: Record, offset: nat) {
    && offset in c.loops && offset in st.pending && offset !in rec.frozen && offset !in st.ins
    && ListsOk(c, st, rec, offset + 1, offset)
  }

  /** The list at a loop head while slots get their loop phis. */
  ghost predicate HeadMatch(c: Context, st: State, offset: nat, before: seq<SsaValue>) {
    && offset in c.loops && offset in st.pending && |st.values| == |before| == |c.tracked| == |st.branchSize|
    && Matches(c, st.values, st.pending[offset], before)
    && LoopPhis(c, st, offset, |st.pending[offset]|)
    && (offset in st.branchTargets ==> JumpedTo(c, offset))
    && ListedOnce(c, st.pending[offset], offset)
  }

  /** The list at a loop head after a slot without entry gets its loop phi: its old value is listed too if a jump came to the head. */
  ghost function HeadList(st: State, offset: nat, s: nat, v: SsaValue): seq<SlotValue>
    requires offset in st.pending && s < |st.values|
  {
    (if offset in st.branchTargets then WithEntry(st.pending[offset], s, st.values[s]) else st.pending[offset]) + [SlotValue(s, v)]
  }

  /** A slot is listed a second time exactly if a jump from before the loop goes to its head. */
  lemma {:induction false} ListedTwice(st: State, phis: seq<PhiNode>, offset: nat, s: nat, v: SsaValue, st': State)
    requires offset in st.pending && s < |st.values| == |st.branchSize| && !HasEntry(st.pending[offset], s)
    requires DistinctSlots(st.pending[offset]) && st' == LoopAssign(st, phis, offset, s, v)
    ensures st'.pending[offset] == HeadList(st, offset, s, v)
    ensures DistinctSlots(st'.pending[offset]) <==> offset !in st.branchTargets
  {
    HeadListed(st, phis, offset, s, v, st');
    var list, n := st'.pending[offset], |st.pending[offset]|;
    if offset in st.branchTargets {
      assert list[n].slot == s && list[n + 1].slot == s;
    } else {
      assert forall i :: 0 <= i < n ==> list[i] == st.pending[offset][i] && list[i].slot != s;
    }
  }

  lemma {:induction false} HeadListed(st: State, phis: seq<PhiNode>, offset: nat, s: nat, v: SsaValue, st': State)
    requires offset in st.pending && s < |st.values| == |st.branchSize| && st' == LoopAssign(st, phis, offset, s, v)
    ensures st'.pending[offset] == HeadList(st, offset, s, v)
  {
    var st1 := st.(phis := phis);
    MarkedAt(st1, s, v, offset - 1, offset, Assign(st1, s, v, offset - 1));
  }

  lemma {:induction false} HeadMatches(c: Context, st: State, offset: nat, s: nat, v: SsaValue, values: seq<SsaValue>, before: seq<SsaValue>)
    requires offset in st.pending && c.Track(s) && |st.values| == |before| == |c.tracked| && values == st.values[s := v]
    requires Matches(c, st.values, st.pending[offset], before)
    ensures Matches(c, values, HeadList(st, offset, s, v), before)
  {
    var list := st.pending[offset];
    forall x: nat | c.Track(x)
      ensures values[x] == Lookup(HeadList(st, offset, s, v), x, before[x])
    {
      LookupSnoc(list, SlotValue(s, st.values[s]), x, before[x]);
      LookupSnoc(list, SlotValue(s, v), x, before[x]);
      LookupSnoc(WithEntry(list, s, st.values[s]), SlotValue(s, v), x, before[x]);
    }
  }

  /** A slot gets its loop phi, which is listed. */
  lemma {:induction false} LoopAssignOpen(c: Context, st: State, rec: Record, phis: seq<PhiNode>, offset: nat, s: nat, v: SsaValue, st': State)
    requires HeadOpen(c, st, rec, offset) && s < |st.values| == |st.branchSize| && !HasEntry(st.pending[offset], s)
    requires st.values[s].Phi? ==> st.values[s].offset < offset
    requires |phis| == |st.phis| + 1 && v == Phi(offset, |st.phis|) && st' == LoopAssign(st, phis, offset, s, v)
    ensures HeadOpen(c, st', rec.(created := rec.created + [offset]), offset)
  {
    var st1 := Assign(st, s, v, offset - 1);
    AssignExtends(st, rec, s, v, offset - 1, st1);
    LoopAssigned(st, phis, offset, s, v, st1, st');
    LoopAppendLists(c, st, rec, st1, offset, SlotValue(s, v), st');
  }

  lemma {:induction false} LoopAssignMatch(c: Context, st: State, phis: seq<PhiNode>, offset: nat, s: nat, v: SsaValue,
                                           before: seq<SsaValue>, st': State)
    requires HeadMatch(c, st, offset, before) && c.Track(s) && !HasEntry(st.pending[offset], s)
    requires v.Phi? && v.offset == offset && st' == LoopAssign(st, phis, offset, s, v)
    ensures HeadMatch(c, st', offset, before)
  {
    HeadListed(st, phis, offset, s, v, st');
    HeadMatches(c, st, offset, s, v, st'.values, before);
    HeadPhis(c, st, offset, s, v, st');
    if DistinctSlots(st.pending[offset]) {
      ListedTwice(st, phis, offset, s, v, st');
    }
  }

  /** A slot that the loop writes and that has no loop phi is not listed at the head. */
  lemma {:induction false} NotListed(c: Context, st: State, offset: nat, s: nat, before: seq<SsaValue>)
    requires HeadMatch(c, st, offset, before) && c.Track(s) && c.WrittenIn(offset, s)
    requires !(st.values[s].Phi? && st.values[s].offset == offset)
    ensures !HasEntry(st.pending[offset], s)
  {
  }

  lemma {:induction false} LoopAssigned(st: State, phis: seq<PhiNode>, offset: nat, s: nat, v: SsaValue, st1: State, st': State)
    requires offset in st.pending && s < |st.values| == |st.branchSize|
    requires st1 == Assign(st, s, v, offset - 1) && st' == LoopAssign(st, phis, offset, s, v)
    ensures offset in st1.pending && st'.pending == st1.pending[offset := st1.pending[offset] + [SlotValue(s, v)]]
    ensures st'.ins == st.ins && st'.outs == st.outs && st'.phis == phis && st1.phis == st.phis
    ensures st'.branchTargets == st.branchTargets && st'.values == st.values[s := v] && |st'.branchSize| == |st.branchSize|
  {
  }

  lemma {:induction false} HeadPhis(c: Context, st: State, offset: nat, s: nat, v: SsaValue, st': State)
    requires offset in st.pending && offset in c.loops && s < |st.values| && LoopPhis(c, st, offset, |st.pending[offset]|)
    requires offset in st'.pending && st'.pending[offset] == HeadList(st, offset, s, v) && st'.values == st.values[s := v]
    requires v.Phi? && v.offset == offset
    ensures LoopPhis(c, st', offset, |st'.pending[offset]|)
  {
    var n := |st.pending[offset]|;
    assert forall j :: 0 <= j < n ==> st'.pending[offset][j] == st.pending[offset][j];
    assert forall j :: n <= j < |st'.pending[offset]| ==> st'.pending[offset][j].slot == s;
  }

  lemma {:induction false} LoopAppendLists(c: Context, st: State, rec: Record, st1: State, offset: nat, e: SlotValue, st': State)
    requires ListsOk(c, st, rec, offset + 1, offset) && offset in st1.pending && offset !in rec.frozen
    requires forall t: nat :: Extended(ListAt(st, rec, t), ListAt(st1, rec, t), t)
    requires forall t: nat :: t < offset ==> ListAt(st1, rec, t) == ListAt(st, rec, t)
    requires st1.pending.Keys == st.pending.Keys && |st1.phis| == |st.phis| && e.value == Phi(offset, |st.phis|)
    requires st'.pending == st1.pending[offset := st1.pending[offset] + [e]] && |st'.phis| == |st.phis| + 1
    requires st'.ins == st.ins && st'.outs == st.outs && offset !in st.ins
    ensures ListsOk(c, st', rec.(created := rec.created + [offset]), offset + 1, offset)
  {
    var rec' := rec.(created := rec.created + [offset]);
    ExtendNodes(st, rec, st1);
    AppendNodes(st1, rec, offset, e, st');
    AppendKeys(c, st, rec, st1, offset, e, st');
    assert forall t: nat :: t != offset ==> ListAt(st', rec', t) == ListAt(st1, rec, t);
    forall t | t in st'.ins
      ensures ValuesListed(c, st', rec', t)
    {
      assert ValuesListed(c, st, rec, t);
    }
  }

  lemma {:induction false} AppendKeys(c: Context, st: State, rec: Record, st1: State, offset: nat, e: SlotValue, st': State)
    requires KeysOk(c, st, rec, offset + 1, offset) && offset in st1.pending && st1.pending.Keys == st.pending.Keys
    requires forall t: nat :: Extended(ListAt(st, rec, t), ListAt(st1, rec, t), t)
    requires st'.pending == st1.pending[offset := st1.pending[offset] + [e]] && st'.ins == st.ins
    ensures KeysOk(c, st', rec, offset + 1, offset)
  {
    forall t: nat | t in st'.pending && t >= offset + 1
      ensures DistinctSlots(st'.pending[t])
    {
      ExtendedDistinct(ListAt(st, rec, t), ListAt(st1, rec, t), t);
    }
  }

  lemma {:induction false} ExtendedDistinct(l: seq<SlotValue>, l': seq<SlotValue>, t: nat)
    requires Extended(l, l', t) && DistinctSlots(l)
    ensures DistinctSlots(l')
  {
  }

  /** The first i entries pending at a loop head are merged, and the written ones are loop phis. */
  ghost predicate HeadTaking(c: Context, st: State, rec: Record, offset: nat, i: nat) {
    && ListsOk(c, st, rec, offset, offset) && offset in st.pending && offset in c.loops
    && Taken(st, offset, i) && LoopPhis(c, st, offset, i)
  }

  lemma {:induction false} HeadMergingFacts(c: Context, start: State, st: State, offset: nat, i: nat, fall: bool)
    requires HeadMerging(c, start, st, offset, i, fall) && i < |st.pending[offset]|
    ensures Inv(c, st, offset - 1, offset) && Dated(c, st, offset, offset) && offset in c.loops && offset in st.pending
    ensures c.Track(st.pending[offset][i].slot)
  {
  }

  lemma {:induction false} HeadTaken(c: Context, start: State, st: State, rec: Record, offset: nat, i: nat, r: SlotValue, fall: bool,
                                     st': State, rec': Record)
    requires HeadMerging(c, start, st, offset, i, fall) && i < |st.pending[offset]|
    requires EntryTaken(c, st, st', offset, i, r, fall, offset - 1) && HeadTaking(c, st, rec, offset, i)
    requires Renewed(|st.phis|, |st'.phis|, offset, st.pending[offset][i], r) && (c.WrittenIn(offset, r.slot) ==> Own(r, offset))
    requires rec' == Renew(rec, offset, st.pending[offset][i], r)
    ensures HeadMerging(c, start, st', offset, i + 1, fall) && HeadTaking(c, st', rec', offset, i + 1)
  {
    NextTaken(c, start, st, rec, offset, i, r, offset - 1, fall, st', rec');
    TakenAt(st, st'.phis, offset, i, r, offset - 1);
    LoopPhisStep(c, st, st', offset, i, r);
    HeadMergingStep(c, start, st, offset, i, r, fall, st');
  }

  lemma {:induction false} HeadAllTaken(c: Context, start: State, st: State, rec: Record, offset: nat, n: nat, fall: bool)
    requires HeadMerging(c, start, st, offset, n, fall) && n == |st.pending[offset]|
    requires HeadTaking(c, st, rec, offset, n) && (offset in st.branchTargets ==> JumpedTo(c, offset)) && offset <= c.loops[offset]
    ensures HeadOpen(c, st, rec, offset) && HeadMatch(c, st, offset, start.values)
  {
    JoinMatches(c, start, st, offset, n, offset - 1, fall);
    ListsPassed(c, st, rec, offset, offset + 1);
  }

  /** A head that nothing jumps to starts with an empty list. */
  lemma {:induction false} HeadFresh(c: Context, start: State, rec: Record, offset: nat, st: State)
    requires ListsOk(c, start, rec, offset, offset) && offset !in start.pending && offset in c.loops && offset <= c.loops[offset]
    requires Shape(c, start) && (offset in start.branchTargets ==> JumpedTo(c, offset))
    requires st == start.(pending := start.pending[offset := []])
    ensures HeadOpen(c, st, rec, offset) && HeadMatch(c, st, offset, start.values)
  {
    ListsOpened(c, start, rec, offset, st, offset, offset);
    ListsPassed(c, st, rec, offset, offset + 1);
  }

  /** A slot that the loop writes gets its loop phi. */
  lemma {:induction false} HeadAssigned(c: Context, start: State, st: State, rec: Record, offset: nat, s: nat, fall: bool, v: SsaValue,
                                        before: seq<SsaValue>, st': State, rec': Record)
    requires HeadProgress(c, start, st, offset, s, fall) && c.Track(s) && c.WrittenIn(offset, s)
    requires !(st.values[s].Phi? && st.values[s].offset == offset)
    requires HeadOpen(c, st, rec, offset) && HeadMatch(c, st, offset, before)
    requires |st'.phis| == |st.phis| + 1 && v == Phi(offset, |st.phis|) && st' == LoopAssign(st, st'.phis, offset, s, v)
    requires rec' == rec.(created := rec.created + [offset])
    ensures HeadOpen(c, st', rec', offset) && HeadMatch(c, st', offset, before)
  {
    NotListed(c, st, offset, s, before);
    LoopAssignOpen(c, st, rec, st'.phis, offset, s, v, st');
    LoopAssignMatch(c, st, st'.phis, offset, s, v, before, st');
  }

  lemma {:induction false} HeadMerged(c: Context, st: State, rec: Record, offset: nat, before: seq<SsaValue>)
    requires HeadOpen(c, st, rec, offset) && HeadMatch(c, st, offset, before)
    ensures Merging(c, before, st, rec, offset)
  {
  }

  // ------------------------------------------------------------------ jumps

  /** At a loop head that was entered, merging the current values changes no loop phi and no slot that the loop leaves alone. */
  ghost predicate Settled(c: Context, st: State, h: nat) {
    h in st.ins && |st.ins[h]| == |st.values| == |c.tracked|
    && forall s: nat :: c.Track(s) ==> (st.ins[h][s].Phi? && st.ins[h][s].offset >= h) || st.values[s] == st.ins[h][s]
  }

  lemma {:induction false} KeptSettled(c: Context, st: State, h: nat, cur: nat)
    requires Shape(c, st) && h in c.loops && LoopKept(c, st, h, cur)
    ensures Settled(c, st, h)
  {
  }

  lemma {:induction false} SettledStays(c: Context, start: State, st: State, target: nat, i: nat, cur: nat)
    requires Shape(c, start) && target in start.pending && i <= |start.pending[target]| && BranchMerged(c, start, st, target, i)
    requires target < cur ==> Settled(c, start, target)
    ensures target < cur ==> Settled(c, st, target)
  {
  }

  /** Entry i at a target becomes r, by merging the current value of its slot. */
  lemma {:induction false} TargetMerged(c: Context, st: State, rec: Record, t: nat, i: nat, r: SlotValue, st': State, rec': Record, cur: nat, lim: nat)
    requires ListsOk(c, st, rec, cur, lim) && Shape(c, st) && t in st.pending && i < |st.pending[t]|
    requires t < cur ==> Settled(c, st, t)
    requires Renewed(|st.phis|, |st'.phis|, t, st.pending[t][i], r) && r.slot == st.pending[t][i].slot
    requires st.values[r.slot] == st.pending[t][i].value ==> r == st.pending[t][i]
    requires st.pending[t][i].value.Phi? && st.pending[t][i].value.offset >= t ==> r == st.pending[t][i]
    requires st' == st.(phis := st'.phis, pending := st.pending[t := st.pending[t][i := r]])
    requires rec' == Renew(rec, t, st.pending[t][i], r)
    ensures ListsOk(c, st', rec', cur, lim)
  {
    var list := st.pending[t];
    if t < cur && forall j :: i < j < |list| ==> list[j].slot != r.slot {
      assert ValuesListed(c, st, rec, t);
      assert ListAt(st, rec, t) == list;
      LookupLast(list, i, Before(c, st.outs, t)[r.slot]);
      assert st.ins[t][r.slot] == list[i].value;
    }
    ListsReplaced(c, st, rec, t, i, r, st', cur, lim);
  }

  /** The back edge of a loop is recorded, and the list at its head frozen. */
  lemma {:induction false} CloseLists(c: Context, st: State, rec: Record, offset: nat, h: nat, cur: nat, st': State, rec': Record)
    requires ListsOk(c, st, rec, cur, offset) && cur == offset + 1 && h in st.pending && h < offset && |st.values| == |c.tracked|
    requires st' == RecordOut(Branched(st.(pending := st.pending - {h}), offset, h), offset) && rec'.created == rec.created
    requires rec'.frozen == if st.pending[h] == [] then rec.frozen else rec.frozen[h := st.pending[h]]
    ensures ListsOk(c, st', rec', cur, offset) && ValuesBefore(c, st', cur)
  {
    var st1 := Branched(st.(pending := st.pending - {h}), offset, h);
    ListsFrozen(c, st, rec, h, st1, rec', cur, cur, offset);
    ListsLeft(c, st1, rec', offset, st', cur, offset);
  }

  lemma {:induction false} TopFacts(c: Context, st: State, offset: nat, fall: bool)
    requires Top(c, st, offset) && fall == FallsInto(c.code, c.reached, offset) && offset < |c.code|
    ensures Inv(c, st, offset - 1, offset) && Dated(c, st, offset, offset - 1) && Dated(c, st, offset, offset)
    ensures |st.values| == |c.tracked| && (fall ==> st.ins != map[]) && (offset == 0 ==> offset !in st.pending)
  {
    if fall {
      assert offset - 1 in st.ins;
    }
  }

  /** The state before the first operation. */
  ghost predicate Started(c: Context, st: State) {
    && |st.values| == |st.branchSize| == |c.tracked| && st.branchTargets == [] && st.pending == map[] && st.phis == []
    && st.ins == map[] && st.outs == map[] && st.branches == {}
    && forall s: nat :: c.Track(s) ==> st.values[s] == Initial(s) && st.branchSize[s] == 0
  }

  lemma {:induction false} TopStart(c: Context, st: State)
    requires c.Valid() && Started(c, st)
    ensures Top(c, st, 0)
  {
    assert Shape(c, st);
  }

  lemma {:induction false} ListsStart(c: Context, st: State, rec: Record)
    requires Started(c, st) && rec == Record(map[], [])
    ensures ListsOk(c, st, rec, 0, 0) && ValuesBefore(c, st, 0)
  {
  }

  /** What the head of a loop can rely on when the sweep comes to it. */
  lemma {:induction false} HeadReady(c: Context, st: State, offset: nat)
    requires c.Valid() && Top(c, st, offset) && offset in c.loops
    ensures BodyPending(c, st, offset) && offset <= c.loops[offset]
    ensures offset in st.pending ==> forall t :: t in st.pending ==> !(offset < t <= c.loops[offset])
    ensures (exists o :: (o, offset) in st.branches) ==> FallsInto(c.code, c.reached, offset)
    ensures offset in st.branchTargets ==> JumpedTo(c, offset)
  {
    HeadEntries(c, st, offset);
    if offset in st.branchTargets {
      assert offset in st.pending;
      var o :| (o, offset) in st.branches && o < offset;
      assert JumpEdge(c.code, o, offset);
    }
  }

  lemma {:induction false} NotPending(c: Context, st: State, offset: nat)
    requires c.Valid() && Top(c, st, offset) && offset < |c.code| && !c.reached[offset]
    ensures offset !in st.pending && offset !in st.outs
  {
    if offset in st.pending {
      var o :| (o, offset) in st.branches && o < offset;
      assert Edge(c.code, o, offset);
    }
  }

  /** An operation that was not reached changes nothing. */
  lemma {:induction false} Unreached(c: Context, st: State, rec: Record, offset: nat)
    requires c.Valid() && Top(c, st, offset) && offset < |c.code| && !c.reached[offset]
    requires ListsOk(c, st, rec, offset, offset) && ValuesBefore(c, st, offset)
    ensures Top(c, st, offset + 1) && ListsOk(c, st, rec, offset + 1, offset + 1) && ValuesBefore(c, st, offset + 1)
  {
    hide ListsOk, ValuesBefore, Top;
    NotPending(c, st, offset);
    Skip(c, st, offset);
    ListsSkipped(c, st, rec, offset, offset + 1);
  }

  // ------------------------------------------------------------------ the result

  /** The list that the pass leaves at an offset. */
  function NewValuesAt(newValues: map<nat, seq<SlotValue>>, t: nat): seq<SlotValue> {
    if t in newValues then newValues[t] else []
  }

  /** Entry i of the list at t is phi node n, created there. */
  predicate ListedAt(newValues: map<nat, seq<SlotValue>>, n: nat, t: nat, i: nat) {
    i < |NewValuesAt(newValues, t)| && NewValuesAt(newValues, t)[i].value == Phi(t, n)
  }

  ghost predicate IsListed(newValues: map<nat, seq<SlotValue>>, n: nat) {
    exists t: nat, i: nat :: ListedAt(newValues, n, t, i)
  }

  /** Every phi node is listed at the offset where it was created, and listed once. */
  ghost predicate NodesListedOnce(phis: seq<PhiNode>, newValues: map<nat, seq<SlotValue>>) {
    && (forall n: nat :: n < |phis| ==> IsListed(newValues, n))
    && (forall n: nat, t: nat, i: nat, u: nat, j: nat :: ListedAt(newValues, n, t, i) && ListedAt(newValues, n, u, j) ==> t == u && i == j)
    && (forall n: nat, t: nat, i: nat :: ListedAt(newValues, n, t, i) ==> n < |phis|)
  }

  /** At the end nothing is pending. */
  lemma {:induction false} NothingPending(c: Context, st: State, rec: Record, n: nat)
    requires c.Valid() && n == |c.code| && Top(c, st, n) && ListsOk(c, st, rec, n, n)
    ensures forall t: nat :: ListAt(st, rec, t) == NewValuesAt(rec.frozen, t)
  {
    hide Top, NodesOk, ValuesListed;
    forall t: nat
      ensures t !in st.pending
    {
      SourceReached(c, st, n, t);
    }
  }

  lemma {:induction false} SourceReached(c: Context, st: State, n: nat, t: nat)
    requires c.Valid() && n == |c.code| && Top(c, st, n)
    ensures t in st.pending ==> t < n
  {
    if t in st.pending && t >= n {
      var o :| (o, t) in st.branches && o < n;
      assert Edge(c.code, o, t);
    }
  }

  lemma {:induction false} ListedOnceAtEnd(st: State, rec: Record)
    requires NodesOk(st, rec) && forall t: nat :: ListAt(st, rec, t) == NewValuesAt(rec.frozen, t)
    ensures NodesListedOnce(st.phis, rec.frozen)
  {
    forall n: nat | n < |st.phis|
      ensures IsListed(rec.frozen, n)
    {
      assert NodeListed(st, rec, n);
      var t := rec.created[n];
      var i :| 0 <= i < |ListAt(st, rec, t)| && ListAt(st, rec, t)[i].value == Phi(t, n);
      assert ListedAt(rec.frozen, n, t, i);
    }
    forall n: nat, t: nat, i: nat | ListedAt(rec.frozen, n, t, i)
      ensures n < |st.phis| && rec.created[n] == t
    {
      assert Owned(ListAt(st, rec, t), t, rec.created);
    }
    forall n: nat, t: nat, i: nat, u: nat, j: nat | ListedAt(rec.frozen, n, t, i) && ListedAt(rec.frozen, n, u, j)
      ensures t == u && i == j
    {
      assert Owned(ListAt(st, rec, t), t, rec.created);
    }
  }

  /**
   What the lists mean: at every reached operation the value of a variable is the
   last one listed for it there, and without one the value after the last reached
   operation before it; no variable is listed twice, except at a loop head that a
   jump from before the loop goes to.
   */
  ghost predicate ListsMeanValues(c: Context, st: State, newValues: map<nat, seq<SlotValue>>)
    requires Sized(c, st.outs)
  {
    forall t :: t in st.ins ==>
      && |st.ins[t]| == |c.tracked|
      && Matches(c, st.ins[t], NewValuesAt(newValues, t), Before(c, st.outs, t))
      && ListedOnce(c, NewValuesAt(newValues, t), t)
  }

  /** The new values that the pass leaves behind. */
  lemma {:induction false} FinalLists(c: Context, st: State, rec: Record, n: nat)
    requires c.Valid() && n == |c.code| && Top(c, st, n) && ListsOk(c, st, rec, n, n)
    ensures NodesListedOnce(st.phis, rec.frozen)
    ensures Sized(c, st.outs) && ListsMeanValues(c, st, rec.frozen)
    ensures forall t: nat :: t < |c.code| && c.reached[t] ==> t in st.ins && t in st.outs
  {
    NothingPending(c, st, rec, n);
    ListedOnceAtEnd(st, rec);
    forall t | t in st.ins
      ensures Matches(c, st.ins[t], NewValuesAt(rec.frozen, t), Before(c, st.outs, t)) && ListedOnce(c, NewValuesAt(rec.frozen, t), t)
    {
      assert ValuesListed(c, st, rec, t);
    }
  }
}
