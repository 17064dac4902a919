/**
 Where the values of the SSA pass come from: what it lists at an operation, and
 what it adds to a phi node, is the value of the variable after an operation from
 which control goes there.
 */
module SsaSources {
  import opened Bytecode
  import opened SsaValues
  import opened SsaState
  import opened SsaListing

  /** From p to q node n stays as it is, or is the node of phi and gets no options but those in `added`. */
  ghost predicate NodeFrom(p: seq<PhiNode>, q: seq<PhiNode>, n: nat, phi: SsaValue, added: set<SsaValue>)
    requires n < |q|
  {
    || (n < |p| && q[n] == p[n])
    || (phi.Phi? && phi.node == n && forall u :: u in q[n].options ==> u in added || (n < |p| && u in p[n].options))
  }

  /** Only the node of phi may change or be new. */
  ghost predicate OptionsFrom(p: seq<PhiNode>, q: seq<PhiNode>, phi: SsaValue, added: set<SsaValue>) {
    forall n: nat :: n < |q| ==> NodeFrom(p, q, n, phi, added)
  }

  lemma {:induction false} OptionsFromThen(p: seq<PhiNode>, q: seq<PhiNode>, r: seq<PhiNode>, phi: SsaValue, a: set<SsaValue>, b: set<SsaValue>)
    requires OptionsFrom(p, q, phi, a) && OptionsFrom(q, r, phi, b) && |p| <= |q| <= |r|
    ensures OptionsFrom(p, r, phi, a + b)
  {
    forall n: nat | n < |r|
      ensures NodeFrom(p, r, n, phi, a + b)
    {
      assert NodeFrom(q, r, n, phi, b);
      assert n < |q| ==> NodeFrom(p, q, n, phi, a);
    }
  }

  /** The node has one more option. */
  ghost function WithOptionAt(phis: seq<PhiNode>, n: nat, v: SsaValue): seq<PhiNode>
    requires n < |phis|
  {
    phis[n := phis[n].(options := WithOption(phis[n].options, v))]
  }

  lemma {:induction false} OptionInserted(c: Context, p: seq<PhiNode>, phi: SsaValue, v: SsaValue)
    requires c.PhisOk(p) && phi.Phi? && phi.node < |p| && c.Typed(p, v, p[phi.node].slot)
    ensures var q := WithOptionAt(p, phi.node, v);
      Grows(p, q) && c.PhisOk(q) && OptionsFrom(p, q, phi, {v}) && v in Options(q, phi)
  {
    var q := WithOptionAt(p, phi.node, v);
    OptionsTyped(c, p, phi.node, v, q);
  }

  lemma {:induction false} OptionsTyped(c: Context, p: seq<PhiNode>, n: nat, v: SsaValue, q: seq<PhiNode>)
    requires c.PhisOk(p) && n < |p| && c.Typed(p, v, p[n].slot) && q == WithOptionAt(p, n, v)
    ensures c.PhisOk(q)
  {
    assert Grows(p, q);
    forall m, i | 0 <= m < |q| && 0 <= i < |q[m].options|
      ensures c.Typed(q, q[m].options[i], q[m].slot)
    {
      if i < |p[m].options| {
        assert q[m].options[i] == p[m].options[i];
      }
      TypedGrows(c, p, q, q[m].options[i], q[m].slot);
    }
  }

  /** A new node with one option. */
  lemma {:induction false} OptionsFirst(p: seq<PhiNode>, q: seq<PhiNode>, r: seq<PhiNode>, phi: SsaValue, v: SsaValue)
    requires OptionsFrom(p, q, phi, {}) && OptionsFrom(q, r, phi, {v}) && |p| <= |q| <= |r|
    ensures OptionsFrom(p, r, phi, {v})
  {
    OptionsFromThen(p, q, r, phi, {}, {v});
    assert {} + {v} == {v};
  }

  lemma {:induction false} OptionsSame(p: seq<PhiNode>, phi: SsaValue)
    ensures OptionsFrom(p, p, phi, {})
  {
  }

  lemma {:induction false} GrowsRefl(p: seq<PhiNode>)
    ensures Grows(p, p)
  {
  }

  lemma {:induction false} CombinedFlows(p: seq<PhiNode>, q: seq<PhiNode>, r: seq<PhiNode>, u: SsaValue, v: SsaValue, w: SsaValue)
    requires Grows(p, q) && Grows(q, r) && Flows(q, u, v) && Flows(r, v, w)
    ensures Grows(p, r) && Flows(r, u, w)
  {
    FlowGrows(q, r, u, v);
    FlowsTrans(r, u, v, w);
  }

  /** v is the value of slot s after an operation from which control goes to t. */
  ghost predicate Arriving(c: Context, outs: map<nat, seq<SsaValue>>, t: nat, s: nat, v: SsaValue) {
    c.Track(s) && exists o :: o in outs && s < |outs[o]| && outs[o][s] == v && Edge(c.code, o, t)
  }

  /** The operation o jumps forward to t, and the jump has been seen. */
  ghost predicate JumpSource(c: Context, st: State, o: nat, t: nat) {
    (o, t) in st.branches && o < t && JumpEdge(c.code, o, t) && o in st.outs
  }

  /** v is the value of slot s after an operation that was seen to jump forward to t. */
  ghost predicate Jumping(c: Context, st: State, t: nat, s: nat, v: SsaValue) {
    exists o :: JumpSource(c, st, o, t) && s < |st.outs[o]| && st.outs[o][s] == v
  }

  lemma {:induction false} JumpingArrives(c: Context, st: State, t: nat, s: nat, v: SsaValue)
    requires Jumping(c, st, t, s, v) && c.Track(s)
    ensures Arriving(c, st.outs, t, s, v)
  {
    var o :| JumpSource(c, st, o, t) && s < |st.outs[o]| && st.outs[o][s] == v;
    assert Edge(c.code, o, t);
  }

  ghost predicate EntryTraced(c: Context, st: State, t: nat, e: SlotValue) {
    Own(e, t) || Jumping(c, st, t, e.slot, e.value)
  }

  /** Every value listed at an operation is a phi node of its own, or was brought by a forward jump. */
  ghost predicate ListsTraced(c: Context, st: State, rec: Record) {
    forall t: nat, i :: 0 <= i < |ListAt(st, rec, t)| ==> EntryTraced(c, st, t, ListAt(st, rec, t)[i])
  }

  /** Every option of a phi node arrives at the operation where the node was created. */
  ghost predicate NodesTraced(c: Context, phis: seq<PhiNode>, created: seq<nat>, outs: map<nat, seq<SsaValue>>) {
    forall n, u :: 0 <= n < |phis| && n < |created| && u in phis[n].options ==> Arriving(c, outs, created[n], phis[n].slot, u)
  }

  ghost predicate TargetsTraced(c: Context, st: State) {
    forall t :: t in st.pending && t in st.branchTargets ==> exists o :: JumpSource(c, st, o, t)
  }

  /** Phi nodes among the values after an operation are no later than it. */
  ghost predicate OutsDated(c: Context, outs: map<nat, seq<SsaValue>>) {
    forall o, s: nat :: o in outs && c.Track(s) && s < |outs[o]| && outs[o][s].Phi? ==> outs[o][s].offset <= o
  }

  /** A slot without entry in the list at t has the given value at every forward jump to t, and no loop headed at t writes it. */
  ghost predicate Unlisted(c: Context, st: State, list: seq<SlotValue>, t: nat, values: seq<SsaValue>) {
    forall s: nat :: c.Track(s) && s < |values| && !HasEntry(list, s) ==>
      && !(t in c.loops && c.WrittenIn(t, s))
      && BroughtEverywhere(c, st, t, s, values[s])
  }

  ghost predicate BroughtEverywhere(c: Context, st: State, t: nat, s: nat, v: SsaValue) {
    forall o :: (o, t) in st.branches && o < t ==> o in st.outs && s < |st.outs[o]| && st.outs[o][s] == v
  }

  ghost predicate InsTraced(c: Context, st: State, rec: Record)
    requires Sized(c, st.outs)
  {
    forall t :: t in st.ins ==> Unlisted(c, st, ListAt(st, rec, t), t, Before(c, st.outs, t))
  }

  ghost predicate Traced(c: Context, st: State, rec: Record) {
    && Sized(c, st.outs) && |rec.created| == |st.phis|
    && ListsTraced(c, st, rec) && NodesTraced(c, st.phis, rec.created, st.outs)
    && TargetsTraced(c, st) && OutsDated(c, st.outs) && InsTraced(c, st, rec)
  }

  // ------------------------------------------------------------------ what stays

  /** State st' has seen at least the jumps and operations of st. */
  ghost predicate SeesMore(st: State, st': State) {
    && st.branches <= st'.branches
    && forall o :: o in st.outs ==> o in st'.outs && st'.outs[o] == st.outs[o]
  }

  lemma {:induction false} JumpingStays(c: Context, st: State, st': State, t: nat, s: nat, v: SsaValue)
    requires Jumping(c, st, t, s, v) && SeesMore(st, st')
    ensures Jumping(c, st', t, s, v)
  {
    var o :| JumpSource(c, st, o, t) && s < |st.outs[o]| && st.outs[o][s] == v;
    assert JumpSource(c, st', o, t);
  }

  lemma {:induction false} ArrivingStays(c: Context, st: State, st': State, t: nat, s: nat, v: SsaValue)
    requires Arriving(c, st.outs, t, s, v) && SeesMore(st, st')
    ensures Arriving(c, st'.outs, t, s, v)
  {
    var o :| o in st.outs && s < |st.outs[o]| && st.outs[o][s] == v && Edge(c.code, o, t);
    assert o in st'.outs;
  }

  lemma {:induction false} NodesStay(c: Context, st: State, rec: Record, st': State)
    requires NodesTraced(c, st.phis, rec.created, st.outs) && SeesMore(st, st') && st'.phis == st.phis
    ensures NodesTraced(c, st'.phis, rec.created, st'.outs)
  {
    forall n, u | 0 <= n < |st'.phis| && n < |rec.created| && u in st'.phis[n].options
      ensures Arriving(c, st'.outs, rec.created[n], st'.phis[n].slot, u)
    {
      ArrivingStays(c, st, st', rec.created[n], st.phis[n].slot, u);
    }
  }

  lemma {:induction false} ListsStay(c: Context, st: State, rec: Record, st': State, rec': Record)
    requires ListsTraced(c, st, rec) && SeesMore(st, st')
    requires forall t: nat :: ListAt(st', rec', t) == ListAt(st, rec, t)
    ensures ListsTraced(c, st', rec')
  {
    forall t: nat, i | 0 <= i < |ListAt(st', rec', t)|
      ensures EntryTraced(c, st', t, ListAt(st', rec', t)[i])
    {
      var e := ListAt(st, rec, t)[i];
      assert EntryTraced(c, st, t, e);
      if !Own(e, t) {
        JumpingStays(c, st, st', t, e.slot, e.value);
      }
    }
  }

  lemma {:induction false} UnlistedStays(c: Context, st: State, list: seq<SlotValue>, t: nat, values: seq<SsaValue>,
                                         st': State, list': seq<SlotValue>, values': seq<SsaValue>)
    requires Unlisted(c, st, list, t, values) && |values'| == |values|
    requires forall o :: o < t && (o, t) in st'.branches ==> (o, t) in st.branches
    requires forall o :: o in st.outs ==> o in st'.outs && st'.outs[o] == st.outs[o]
    requires forall s: nat :: c.Track(s) && HasEntry(list, s) ==> HasEntry(list', s)
    requires forall s: nat :: c.Track(s) && s < |values| && !HasEntry(list', s) ==> values'[s] == values[s]
    ensures Unlisted(c, st', list', t, values')
  {
    forall s: nat | c.Track(s) && s < |values'| && !HasEntry(list', s)
      ensures !(t in c.loops && c.WrittenIn(t, s)) && BroughtEverywhere(c, st', t, s, values'[s])
    {
      assert !HasEntry(list, s);
      assert BroughtEverywhere(c, st, t, s, values[s]);
    }
  }

  /** Entered operations stay as they are while lists keep the slots they have. */
  lemma {:induction false} InsStay(c: Context, st: State, rec: Record, st': State, rec': Record)
    requires Sized(c, st.outs) && Sized(c, st'.outs) && InsTraced(c, st, rec) && st'.ins == st.ins
    requires forall o, t :: t in st.ins && o < t && (o, t) in st'.branches ==> (o, t) in st.branches
    requires forall o :: o in st.outs ==> o in st'.outs && st'.outs[o] == st.outs[o]
    requires forall t :: t in st.ins ==> Before(c, st'.outs, t) == Before(c, st.outs, t)
    requires forall t: nat, s: nat :: t in st.ins && c.Track(s) && HasEntry(ListAt(st, rec, t), s) ==> HasEntry(ListAt(st', rec', t), s)
    ensures InsTraced(c, st', rec')
  {
    forall t | t in st'.ins
      ensures Unlisted(c, st', ListAt(st', rec', t), t, Before(c, st'.outs, t))
    {
      UnlistedStays(c, st, ListAt(st, rec, t), t, Before(c, st.outs, t), st', ListAt(st', rec', t), Before(c, st'.outs, t));
    }
  }

  // ------------------------------------------------------------------ marking

  /** Wherever the value of slot s is about to be marked, a jump brings it. */
  ghost predicate MarksTraced(c: Context, st: State, s: nat, cut: int)
    requires s < |st.values|
  {
    forall t :: t in st.pending && t in st.branchTargets && t > cut && !HasEntry(st.pending[t], s) ==> Jumping(c, st, t, s, st.values[s])
  }

  lemma {:induction false} MarkTraced(c: Context, st: State, s: nat, t: nat)
    requires s < |st.values| && t in st.pending && t in st.branchTargets && TargetsTraced(c, st)
    requires BroughtEverywhere(c, st, t, s, st.values[s])
    ensures Jumping(c, st, t, s, st.values[s])
  {
    var o :| JumpSource(c, st, o, t);
  }

  lemma {:induction false} BookkeepingMarks(c: Context, st: State, s: nat, cut: int)
    requires Shape(c, st) && Bookkeeping(c, st, cut) && TargetsTraced(c, st) && c.Track(s)
    ensures MarksTraced(c, st, s, cut)
  {
    forall t | t in st.pending && t in st.branchTargets && t > cut && !HasEntry(st.pending[t], s)
      ensures Jumping(c, st, t, s, st.values[s])
    {
      MarkTraced(c, st, s, t);
    }
  }

  lemma {:induction false} AssignTraced(c: Context, st: State, rec: Record, s: nat, v: SsaValue, cut: int, st': State)
    requires Traced(c, st, rec) && s < |st.values| == |st.branchSize| && st' == Assign(st, s, v, cut)
    requires forall t :: t in rec.frozen ==> t !in st.pending
    requires MarksTraced(c, st, s, cut)
    ensures Traced(c, st', rec)
  {
    hide NodesTraced, OutsDated, EntryTraced, Unlisted, Jumping;
    forall t: nat, i | 0 <= i < |ListAt(st', rec, t)|
      ensures EntryTraced(c, st', t, ListAt(st', rec, t)[i])
    {
      AssignedEntry(c, st, rec, s, v, cut, st', t, i);
    }
    forall t: nat, x: nat | HasEntry(ListAt(st, rec, t), x)
      ensures HasEntry(ListAt(st', rec, t), x)
    {
      AssignedKeeps(st, rec, s, v, cut, st', t, x);
    }
    InsStay(c, st, rec, st', rec);
    AssignTargets(c, st, s, v, cut, st');
  }

  lemma {:induction false} AssignTargets(c: Context, st: State, s: nat, v: SsaValue, cut: int, st': State)
    requires TargetsTraced(c, st) && s < |st.values| == |st.branchSize| && st' == Assign(st, s, v, cut)
    ensures TargetsTraced(c, st')
  {
    forall t | t in st'.pending && t in st'.branchTargets
      ensures exists o :: JumpSource(c, st', o, t)
    {
      var o :| JumpSource(c, st, o, t);
      assert JumpSource(c, st', o, t);
    }
  }

  lemma {:induction false} AssignedKeeps(st: State, rec: Record, s: nat, v: SsaValue, cut: int, st': State, t: nat, x: nat)
    requires s < |st.values| == |st.branchSize| && st' == Assign(st, s, v, cut)
    requires HasEntry(ListAt(st, rec, t), x)
    ensures HasEntry(ListAt(st', rec, t), x)
  {
    MarkedAt(st, s, v, cut, t, st');
    var i :| 0 <= i < |ListAt(st, rec, t)| && ListAt(st, rec, t)[i].slot == x;
    assert ListAt(st', rec, t)[i].slot == x;
  }

  lemma {:induction false} AssignedEntry(c: Context, st: State, rec: Record, s: nat, v: SsaValue, cut: int, st': State, t: nat, i: nat)
    requires ListsTraced(c, st, rec) && s < |st.values| == |st.branchSize| && st' == Assign(st, s, v, cut)
    requires t in rec.frozen ==> t !in st.pending
    requires MarksTraced(c, st, s, cut) && i < |ListAt(st', rec, t)|
    ensures EntryTraced(c, st', t, ListAt(st', rec, t)[i])
  {
    MarkedAt(st, s, v, cut, t, st');
    var e := ListAt(st', rec, t)[i];
    if i < |ListAt(st, rec, t)| {
      assert e == ListAt(st, rec, t)[i] && EntryTraced(c, st, t, e);
    } else {
      assert e == SlotValue(s, st.values[s]) && Jumping(c, st, t, s, st.values[s]);
    }
    if !Own(e, t) {
      JumpingStays(c, st, st', t, e.slot, e.value);
    }
  }

  // ------------------------------------------------------------------ merging

  /** The values that entry e becoming r may add to the phi node of r, if v comes in as well. */
  ghost function Sources(e: SlotValue, r: SlotValue, v: SsaValue, comes: bool): set<SsaValue> {
    (if comes then {v} else {}) + (if r == e then {} else {e.value})
  }

  lemma {:induction false} SourcesAre(e: SlotValue, r: SlotValue, v: SsaValue)
    ensures Sources(e, r, v, true) == if r == e then {v} else {v, e.value}
    ensures Sources(e, r, v, false) == if r == e then {} else {e.value}
  {
  }

  /** Options are only added to a phi node of the offset. */
  ghost predicate AddsAt(p: seq<PhiNode>, q: seq<PhiNode>, offset: nat, r: SlotValue) {
    q == p || (r.value.Phi? && r.value.offset >= offset && r.value.node < |q| && q[r.value.node].slot == r.slot)
  }

  /** Entry e may get a phi node of its own, and then v merged into it. */
  lemma {:induction false} CombinedOptions(p: seq<PhiNode>, q: seq<PhiNode>, z: seq<PhiNode>, offset: nat, e: SlotValue, d: SlotValue,
                                           r: SlotValue, v: SsaValue)
    requires Grows(p, q) && Grows(q, z) && OptionsFrom(q, z, r.value, Sources(d, r, v, true)) && AddsAt(q, z, offset, r)
    requires if d == e then p == q else OptionsFrom(p, q, d.value, {e.value}) && Own(d, offset)
    requires d != e ==> r == d
    ensures OptionsFrom(p, z, r.value, Sources(e, r, v, true))
  {
    if d != e {
      OptionsFromThen(p, q, z, r.value, {e.value}, Sources(d, r, v, true));
      assert {e.value} + Sources(d, r, v, true) == Sources(e, r, v, true);
    }
  }

  lemma {:induction false} JumpingDated(c: Context, st: State, t: nat, s: nat, v: SsaValue)
    requires Jumping(c, st, t, s, v) && OutsDated(c, st.outs) && c.Track(s)
    ensures v.Phi? ==> v.offset < t
  {
    var o :| JumpSource(c, st, o, t) && s < |st.outs[o]| && st.outs[o][s] == v;
  }

  /** Entry i pending at t becomes r, and the values that this adds to its phi node arrive at t. */
  lemma {:induction false} ReplacedNodes(c: Context, st: State, rec: Record, t: nat, i: nat, r: SlotValue, v: SsaValue, comes: bool,
                                         st': State, rec': Record)
    requires Traced(c, st, rec) && NodesOk(st, rec) && t in st.pending && t !in rec.frozen && i < |st.pending[t]|
    requires Renewed(|st.phis|, |st'.phis|, t, st.pending[t][i], r) && rec' == Renew(rec, t, st.pending[t][i], r)
    requires r.slot == st.pending[t][i].slot && c.Track(r.slot)
    requires OptionsFrom(st.phis, st'.phis, r.value, Sources(st.pending[t][i], r, v, comes)) && AddsAt(st.phis, st'.phis, t, r)
    requires Grows(st.phis, st'.phis) && st'.outs == st.outs
    requires comes ==> Arriving(c, st.outs, t, r.slot, v)
    ensures NodesTraced(c, st'.phis, rec'.created, st'.outs)
  {
    hide InsTraced, TargetsTraced, NodeListed;
    var e := st.pending[t][i];
    assert ListAt(st, rec, t)[i] == e && EntryTraced(c, st, t, e);
    if r == e && r.value.Phi? && r.value.offset >= t {
      if !Own(e, t) {
        JumpingDated(c, st, t, e.slot, e.value);
      }
      assert Owned(ListAt(st, rec, t), t, rec.created);
    }
    if r != e {
      JumpingArrives(c, st, t, e.slot, e.value);
    }
    forall n, u | 0 <= n < |st'.phis| && n < |rec'.created| && u in st'.phis[n].options
      ensures Arriving(c, st'.outs, rec'.created[n], st'.phis[n].slot, u)
    {
      assert NodeFrom(st.phis, st'.phis, n, r.value, Sources(e, r, v, comes));
      if n < |st.phis| && st'.phis[n] == st.phis[n] {
        assert rec'.created[n] == rec.created[n];
      } else {
        assert r.value.Phi? && r.value.node == n && rec'.created[n] == t;
        if n < |st.phis| && u in st.phis[n].options {
          assert Arriving(c, st.outs, rec.created[n], st.phis[n].slot, u);
        }
      }
    }
  }

  lemma {:induction false} ReplacedTraced(c: Context, st: State, rec: Record, t: nat, i: nat, r: SlotValue, v: SsaValue, comes: bool,
                                          st': State, rec': Record)
    requires Traced(c, st, rec) && NodesOk(st, rec) && t in st.pending && t !in rec.frozen && i < |st.pending[t]|
    requires Renewed(|st.phis|, |st'.phis|, t, st.pending[t][i], r) && rec' == Renew(rec, t, st.pending[t][i], r)
    requires r.slot == st.pending[t][i].slot && c.Track(r.slot)
    requires OptionsFrom(st.phis, st'.phis, r.value, Sources(st.pending[t][i], r, v, comes)) && AddsAt(st.phis, st'.phis, t, r)
    requires Grows(st.phis, st'.phis)
    requires comes ==> Arriving(c, st.outs, t, r.slot, v)
    requires st' == st.(phis := st'.phis, pending := st.pending[t := st.pending[t][i := r]])
    ensures Traced(c, st', rec')
  {
    hide NodesOk, NodesTraced, OutsDated, Unlisted, OptionsFrom;
    ReplacedNodes(c, st, rec, t, i, r, v, comes, st', rec');
    forall u: nat, j | 0 <= j < |ListAt(st', rec', u)|
      ensures EntryTraced(c, st', u, ListAt(st', rec', u)[j])
    {
      ReplacedEntry(c, st, rec, t, i, r, st', rec', u, j);
    }
    SameSlots(st.pending[t], st'.pending[t]);
    InsStay(c, st, rec, st', rec');
    forall u | u in st'.pending && u in st'.branchTargets
      ensures exists o :: JumpSource(c, st', o, u)
    {
      var o :| JumpSource(c, st, o, u);
      assert JumpSource(c, st', o, u);
    }
  }

  lemma {:induction false} ReplacedEntry(c: Context, st: State, rec: Record, t: nat, i: nat, r: SlotValue, st': State, rec': Record, u: nat, j: nat)
    requires ListsTraced(c, st, rec) && t in st.pending && t !in rec.frozen && i < |st.pending[t]|
    requires r == st.pending[t][i] || Own(r, t)
    requires st' == st.(phis := st'.phis, pending := st.pending[t := st.pending[t][i := r]]) && rec'.frozen == rec.frozen
    requires j < |ListAt(st', rec', u)|
    ensures EntryTraced(c, st', u, ListAt(st', rec', u)[j])
  {
    if u != t || j != i || r == st.pending[t][i] {
      var e := ListAt(st, rec, u)[j];
      assert ListAt(st', rec', u)[j] == e && EntryTraced(c, st, u, e);
      if !Own(e, u) {
        JumpingStays(c, st, st', u, e.slot, e.value);
      }
    }
  }

  /** If control falls into the offset, the current values are those after the operation before. */
  ghost predicate Falling(c: Context, st: State, offset: nat, fall: bool) {
    fall ==> 0 < offset && offset - 1 in st.outs && st.outs[offset - 1] == st.values && Edge(c.code, offset - 1, offset)
  }

  lemma {:induction false} FallingArrives(c: Context, start: State, outs: map<nat, seq<SsaValue>>, offset: nat, s: nat)
    requires Falling(c, start, offset, true) && outs == start.outs && s < |start.values| && c.Track(s)
    ensures Arriving(c, outs, offset, s, start.values[s])
  {
  }

  /** An entry that has not been merged has a slot whose value is the one that came in. */
  lemma {:induction false} UnmergedValue(c: Context, start: State, st: State, offset: nat, i: nat, cut: int, fall: bool)
    requires Progress(c, start, st, offset, i, cut, fall) && i < |st.pending[offset]| && DistinctSlots(st.pending[offset])
    ensures var s := st.pending[offset][i].slot;
            c.Track(s) && s < |st.values| && s < |start.values| && st.values[s] == start.values[s]
  {
    hide Inv, Dated, Arrivals, Grows;
    UnfoldInv(c, st, cut, offset);
    assert !HasEntry(start.pending[offset][..i], st.pending[offset][i].slot);
  }

  lemma {:induction false} UnfoldInv(c: Context, st: State, cut: int, cur: nat)
    ensures Inv(c, st, cut, cur) ==> Shape(c, st) && Bookkeeping(c, st, cut)
  {
  }

  lemma {:induction false} TakeTraced(c: Context, start: State, st: State, rec: Record, offset: nat, i: nat, r: SlotValue, cut: int, fall: bool,
                                      st': State, rec': Record)
    requires Traced(c, st, rec) && ListsOk(c, st, rec, offset, offset) && cut <= offset
    requires Progress(c, start, st, offset, i, cut, fall) && i < |st.pending[offset]| && Falling(c, start, offset, fall)
    requires EntryTaken(c, st, st', offset, i, r, fall, cut)
    requires Renewed(|st.phis|, |st'.phis|, offset, st.pending[offset][i], r) && rec' == Renew(rec, offset, st.pending[offset][i], r)
    requires OptionsFrom(st.phis, st'.phis, r.value, Sources(st.pending[offset][i], r, st.values[r.slot], fall))
    requires AddsAt(st.phis, st'.phis, offset, r)
    ensures Traced(c, st', rec')
  {
    hide NodesOk, Traced, OptionsFrom, Arrivals, Merged, Dated;
    hide Inv;
    UnmergedValue(c, start, st, offset, i, cut, fall);
    UnfoldInv(c, st, cut, offset);
    var st1 := SetEntry(st.(phis := st'.phis), offset, i, r);
    if fall {
      FallingArrives(c, start, st.outs, offset, r.slot);
    }
    ReplacedTraced(c, st, rec, offset, i, r, st.values[r.slot], fall, st1, rec');
    TakenMarks(c, st, rec', offset, i, r, cut, st1);
    AssignTraced(c, st1, rec', r.slot, r.value, cut, st');
  }

  lemma {:induction false} TakenMarks(c: Context, st: State, rec: Record, offset: nat, i: nat, r: SlotValue, cut: int, st1: State)
    requires Shape(c, st) && Bookkeeping(c, st, cut) && c.Track(r.slot) && Traced(c, st1, rec)
    requires offset in st.pending && i < |st.pending[offset]| && r.slot == st.pending[offset][i].slot
    requires st1 == SetEntry(st.(phis := st1.phis), offset, i, r)
    ensures r.slot < |st1.values| && MarksTraced(c, st1, r.slot, cut)
  {
    hide InsTraced, NodesTraced, ListsTraced;
    assert HasEntry(st1.pending[offset], r.slot) by { assert st1.pending[offset][i].slot == r.slot; }
    forall t | t in st1.pending && t in st1.branchTargets && t > cut && !HasEntry(st1.pending[t], r.slot)
      ensures Jumping(c, st1, t, r.slot, st1.values[r.slot])
    {
      assert st1.pending[t] == st.pending[t];
      assert BroughtEverywhere(c, st1, t, r.slot, st1.values[r.slot]);
      MarkTraced(c, st1, r.slot, t);
    }
  }

  // ------------------------------------------------------------------ joins and loop heads

  lemma {:induction false} FrozenTraced(c: Context, st: State, rec: Record, t: nat, st': State, rec': Record)
    requires Traced(c, st, rec) && t in st.pending && t !in rec.frozen
    requires st' == st.(pending := st.pending - {t}) && rec'.created == rec.created
    requires rec'.frozen == if st.pending[t] == [] then rec.frozen else rec.frozen[t := st.pending[t]]
    ensures Traced(c, st', rec') && forall u: nat :: ListAt(st', rec', u) == ListAt(st, rec, u)
  {
    hide Unlisted, OutsDated;
    assert forall u: nat :: ListAt(st', rec', u) == ListAt(st, rec, u);
    ListsStay(c, st, rec, st', rec');
    NodesStay(c, st, rec, st');
    InsStay(c, st, rec, st', rec');
    forall u | u in st'.pending && u in st'.branchTargets
      ensures exists o :: JumpSource(c, st', o, u)
    {
      var o :| JumpSource(c, st, o, u);
      assert JumpSource(c, st', o, u);
    }
  }

  /** Slots that a join leaves unlisted have their value at every jump to it. */
  lemma {:induction false} JoinUnlisted(c: Context, start: State, st: State, offset: nat, n: nat, cut: int, fall: bool)
    requires Progress(c, start, st, offset, n, cut, fall) && n == |st.pending[offset]|
    requires Shape(c, start) && Bookkeeping(c, start, offset - 1)
    ensures OpenTraced(c, st, offset)
  {
    hide Inv, Dated, Arrivals, Grows;
    var list := st.pending[offset];
    assert start.pending[offset][..n] == start.pending[offset];
    SameSlots(start.pending[offset], list);
    UnfoldInv(c, st, cut, offset);
    forall s: nat | c.Track(s) && s < |st.values| && !HasEntry(list, s)
      ensures BroughtEverywhere(c, st, offset, s, st.values[s])
    {
      assert !HasEntry(start.pending[offset], s);
      assert st.values[s] == start.values[s];
    }
  }

  /** A slot that has no entry in the list pending at the offset has its value at every jump to it. */
  ghost predicate OpenTraced(c: Context, st: State, offset: nat)
    requires offset in st.pending
  {
    forall s: nat :: c.Track(s) && s < |st.values| && !HasEntry(st.pending[offset], s) ==>
      BroughtEverywhere(c, st, offset, s, st.values[s])
  }

  /** Nothing jumps to an offset that has no list. */
  lemma {:induction false} NoJumps(c: Context, st: State, offset: nat)
    requires Shape(c, st) && Bookkeeping(c, st, offset - 1) && offset !in st.pending
    ensures forall s: nat, v :: BroughtEverywhere(c, st, offset, s, v)
  {
  }

  lemma {:induction false} OpenUnlisted(c: Context, st: State, rec: Record, offset: nat)
    requires offset in st.pending && offset !in rec.frozen && OpenTraced(c, st, offset)
    requires offset in c.loops ==> forall s: nat :: c.Track(s) && c.WrittenIn(offset, s) ==> HasEntry(st.pending[offset], s)
    ensures Unlisted(c, st, ListAt(st, rec, offset), offset, st.values)
  {
  }

  lemma {:induction false} LoopPhiTraced(c: Context, st: State, rec: Record, offset: nat, s: nat, phis: seq<PhiNode>, fall: bool,
                                         st': State, rec': Record)
    requires Traced(c, st, rec) && s < |st.values| && st' == st.(phis := phis)
    requires |phis| == |st.phis| + 1 && rec' == rec.(created := rec.created + [offset]) && phis[|st.phis|].slot == s
    requires OptionsFrom(st.phis, phis, Phi(offset, |st.phis|), if fall then {st.values[s]} else {})
    requires Grows(st.phis, phis)
    requires fall ==> Arriving(c, st.outs, offset, s, st.values[s])
    ensures Traced(c, st', rec')
  {
    hide Unlisted, OutsDated;
    forall n, u | 0 <= n < |phis| && n < |rec'.created| && u in phis[n].options
      ensures Arriving(c, st'.outs, rec'.created[n], phis[n].slot, u)
    {
      assert NodeFrom(st.phis, phis, n, Phi(offset, |st.phis|), if fall then {st.values[s]} else {});
      if n < |st.phis| {
        assert phis[n] == st.phis[n] && Arriving(c, st.outs, rec.created[n], st.phis[n].slot, u);
      }
    }
    ListsStay(c, st, rec, st', rec');
    InsStay(c, st, rec, st', rec');
    forall u | u in st'.pending && u in st'.branchTargets
      ensures exists o :: JumpSource(c, st', o, u)
    {
      var o :| JumpSource(c, st, o, u);
      assert JumpSource(c, st', o, u);
    }
  }

  /** A slot gets its loop phi: its old value is marked at the targets, and the phi node listed at the head. */
  lemma {:induction false} LoopAssignTraced(c: Context, st: State, rec: Record, offset: nat, s: nat, v: SsaValue, st': State)
    requires Traced(c, st, rec) && Shape(c, st) && Bookkeeping(c, st, offset) && c.Track(s)
    requires offset in st.pending && OpenTraced(c, st, offset) && forall t :: t in rec.frozen ==> t !in st.pending
    requires v.Phi? && v.offset == offset && st' == LoopAssign(st, st.phis, offset, s, v)
    ensures Traced(c, st', rec) && OpenTraced(c, st', offset) && HasEntry(st'.pending[offset], s)
  {
    hide Traced;
    var st1 := Assign(st, s, v, offset - 1);
    OpenMarks(c, st, rec, offset, s);
    AssignTraced(c, st, rec, s, v, offset - 1, st1);
    AppendTraced(c, st1, rec, offset, SlotValue(s, v), st');
    OpenStays(c, st, offset, s, v, st');
  }

  lemma {:induction false} OpenMarks(c: Context, st: State, rec: Record, offset: nat, s: nat)
    requires Traced(c, st, rec) && Shape(c, st) && Bookkeeping(c, st, offset) && c.Track(s)
    requires offset in st.pending && OpenTraced(c, st, offset)
    ensures s < |st.values| && MarksTraced(c, st, s, offset - 1)
  {
    hide InsTraced, NodesTraced, ListsTraced;
    BookkeepingMarks(c, st, s, offset);
    if offset in st.branchTargets && !HasEntry(st.pending[offset], s) {
      MarkTraced(c, st, s, offset);
    }
  }

  lemma {:induction false} OpenStays(c: Context, st: State, offset: nat, s: nat, v: SsaValue, st': State)
    requires offset in st.pending && s < |st.values| == |st.branchSize| && OpenTraced(c, st, offset)
    requires st' == LoopAssign(st, st.phis, offset, s, v)
    ensures OpenTraced(c, st', offset) && HasEntry(st'.pending[offset], s)
  {
    HeadListed(st, st.phis, offset, s, v, st');
    var list, list' := st.pending[offset], st'.pending[offset];
    assert list'[|list'| - 1].slot == s;
    forall x: nat | c.Track(x) && x < |st'.values| && !HasEntry(list', x)
      ensures BroughtEverywhere(c, st', offset, x, st'.values[x])
    {
      assert !HasEntry(list, x) by { LongerList(list, list', x); }
      assert BroughtEverywhere(c, st, offset, x, st.values[x]);
    }
  }

  lemma {:induction false} LongerList(list: seq<SlotValue>, list': seq<SlotValue>, s: nat)
    requires list <= list'
    ensures HasEntry(list, s) ==> HasEntry(list', s)
  {
    if i :| 0 <= i < |list| && list[i].slot == s {
      assert list'[i].slot == s;
    }
  }

  lemma {:induction false} AppendTraced(c: Context, st: State, rec: Record, t: nat, e: SlotValue, st': State)
    requires Traced(c, st, rec) && t in st.pending && Own(e, t) && st' == AppendEntry(st, t, e)
    ensures Traced(c, st', rec)
  {
    hide Unlisted, OutsDated, NodesTraced;
    forall u: nat, i | 0 <= i < |ListAt(st', rec, u)|
      ensures EntryTraced(c, st', u, ListAt(st', rec, u)[i])
    {
      if i < |ListAt(st, rec, u)| {
        var d := ListAt(st, rec, u)[i];
        assert ListAt(st', rec, u)[i] == d && EntryTraced(c, st, u, d);
        if !Own(d, u) {
          JumpingStays(c, st, st', u, d.slot, d.value);
        }
      }
    }
    forall u: nat, x: nat | HasEntry(ListAt(st, rec, u), x)
      ensures HasEntry(ListAt(st', rec, u), x)
    {
      var i :| 0 <= i < |ListAt(st, rec, u)| && ListAt(st, rec, u)[i].slot == x;
      assert ListAt(st', rec, u)[i].slot == x;
    }
    InsStay(c, st, rec, st', rec);
    TargetsStay(c, st, st');
  }

  lemma {:induction false} TargetsStay(c: Context, st: State, st': State)
    requires TargetsTraced(c, st) && SeesMore(st, st')
    requires forall t :: t in st'.pending && t in st'.branchTargets ==> t in st.pending && t in st.branchTargets
    ensures TargetsTraced(c, st')
  {
    forall t | t in st'.pending && t in st'.branchTargets
      ensures exists o :: JumpSource(c, st', o, t)
    {
      var o :| JumpSource(c, st, o, t);
      assert JumpSource(c, st', o, t);
    }
  }

  // ------------------------------------------------------------------ the sweep

  /** The values at the offset are recorded. */
  lemma {:induction false} EnteredTraced(c: Context, st: State, rec: Record, offset: nat, before: seq<SsaValue>, st': State)
    requires Traced(c, st, rec) && offset !in st.ins && st' == RecordIn(st, offset) && |st.values| == |before| == |c.tracked|
    requires Unlisted(c, st, ListAt(st, rec, offset), offset, st.values)
    requires Matches(c, st.values, ListAt(st, rec, offset), before)
    requires forall s: nat :: c.Track(s) ==> before[s] == Before(c, st.outs, offset)[s]
    ensures Traced(c, st', rec)
  {
    hide OutsDated, NodesTraced;
    ListsStay(c, st, rec, st', rec);
    NodesStay(c, st, rec, st');
    TargetsStay(c, st, st');
    forall t | t in st'.ins
      ensures Unlisted(c, st', ListAt(st', rec, t), t, Before(c, st'.outs, t))
    {
      if t != offset {
        UnlistedStays(c, st, ListAt(st, rec, t), t, Before(c, st.outs, t), st', ListAt(st', rec, t), Before(c, st'.outs, t));
      } else {
        UnlistedMatches(c, ListAt(st, rec, t), st.values, before);
        UnlistedStays(c, st, ListAt(st, rec, t), t, st.values, st', ListAt(st', rec, t), Before(c, st'.outs, t));
      }
    }
  }

  lemma {:induction false} UnlistedMatches(c: Context, list: seq<SlotValue>, values: seq<SsaValue>, before: seq<SsaValue>)
    requires |values| == |before| == |c.tracked| && Matches(c, values, list, before)
    ensures forall s: nat :: c.Track(s) && !HasEntry(list, s) ==> values[s] == before[s]
  {
    forall s: nat | c.Track(s) && !HasEntry(list, s)
      ensures values[s] == before[s]
    {
      LookupNone(list, s, before[s]);
    }
  }

  /** The values after the operation at the offset are recorded. */
  lemma {:induction false} LeftTraced(c: Context, st: State, rec: Record, offset: nat, st': State)
    requires Traced(c, st, rec) && st' == RecordOut(st, offset) && |st.values| == |c.tracked|
    requires offset in st.outs ==> st.outs[offset] == st.values
    requires forall t :: t in st.ins ==> t <= offset
    requires forall s: nat :: c.Track(s) && st.values[s].Phi? ==> st.values[s].offset <= offset
    ensures Traced(c, st', rec)
  {
    hide Unlisted, EntryTraced;
    ListsStay(c, st, rec, st', rec);
    NodesStay(c, st, rec, st');
    TargetsStay(c, st, st');
    forall t | t in st.ins
      ensures Before(c, st'.outs, t) == Before(c, st.outs, t)
    {
      BeforeStays(c, st.outs, st'.outs, t);
    }
    InsStay(c, st, rec, st', rec);
  }

  /** A forward jump to a target that is pending is recorded. */
  lemma {:induction false} JumpTraced(c: Context, st: State, rec: Record, offset: nat, target: nat, st': State)
    requires Traced(c, st, rec) && st' == Branched(st, offset, target) && forall t :: t in st.ins ==> t != target
    ensures Traced(c, st', rec)
  {
    hide Unlisted, EntryTraced, OutsDated;
    ListsStay(c, st, rec, st', rec);
    NodesStay(c, st, rec, st');
    TargetsStay(c, st, st');
    InsStay(c, st, rec, st', rec);
  }

  /** The first jump to a target. */
  lemma {:induction false} FirstJumpTraced(c: Context, st: State, rec: Record, offset: nat, target: nat, st': State)
    requires Traced(c, st, rec) && target !in st.pending && target !in rec.frozen && forall t :: t in st.ins ==> t != target
    requires offset < target && JumpEdge(c.code, offset, target) && offset in st.outs
    requires st' == Branched(st.(pending := st.pending[target := []], branchTargets := st.branchTargets + [target]), offset, target)
    ensures Traced(c, st', rec)
  {
    hide Unlisted, EntryTraced, OutsDated;
    assert forall t: nat :: ListAt(st', rec, t) == ListAt(st, rec, t);
    ListsStay(c, st, rec, st', rec);
    NodesStay(c, st, rec, st');
    InsStay(c, st, rec, st', rec);
    forall t | t in st'.pending && t in st'.branchTargets
      ensures exists o :: JumpSource(c, st', o, t)
    {
      if t == target {
        assert JumpSource(c, st', offset, t);
      } else {
        var o :| JumpSource(c, st, o, t);
        assert JumpSource(c, st', o, t);
      }
    }
  }

  /** Entry i at a target becomes r, by merging the current value of its slot, which goes to the target. */
  lemma {:induction false} MergedTraced(c: Context, st: State, rec: Record, from: nat, target: nat, i: nat, r: SlotValue, st': State, rec': Record)
    requires Traced(c, RecordOut(st, from), rec) && NodesOk(st, rec) && Shape(c, st)
    requires target in st.pending && target !in rec.frozen && i < |st.pending[target]|
    requires Edge(c.code, from, target) && r.slot == st.pending[target][i].slot
    requires Renewed(|st.phis|, |st'.phis|, target, st.pending[target][i], r) && rec' == Renew(rec, target, st.pending[target][i], r)
    requires OptionsFrom(st.phis, st'.phis, r.value, Sources(st.pending[target][i], r, st.values[r.slot], true))
    requires AddsAt(st.phis, st'.phis, target, r) && Grows(st.phis, st'.phis)
    requires st' == st.(phis := st'.phis, pending := st.pending[target := st.pending[target][i := r]])
    ensures Traced(c, RecordOut(st', from), rec')
  {
    hide Traced, OptionsFrom, NodeListed;
    var st1 := RecordOut(st, from);
    ExtendNodes(st, rec, st1);
    assert Arriving(c, st1.outs, target, r.slot, st.values[r.slot]) by {
      assert from in st1.outs;
    }
    ReplacedTraced(c, st1, rec, target, i, r, st.values[r.slot], true, RecordOut(st', from), rec');
  }

  /** The back edge of a loop: the list at its head is frozen. */
  lemma {:induction false} ClosedTraced(c: Context, st: State, rec: Record, offset: nat, h: nat, st': State, rec': Record)
    requires Traced(c, RecordOut(st, offset), rec) && h in st.pending && h !in rec.frozen && h < offset
    requires st' == RecordOut(Branched(st.(pending := st.pending - {h}), offset, h), offset) && rec'.created == rec.created
    requires rec'.frozen == if st.pending[h] == [] then rec.frozen else rec.frozen[h := st.pending[h]]
    ensures Traced(c, st', rec')
  {
    hide OutsDated, NodesTraced;
    var st1 := RecordOut(st, offset);
    var st2 := st1.(pending := st1.pending - {h});
    FrozenTraced(c, st1, rec, h, st2, rec');
    ListsStay(c, st2, rec', st', rec');
    NodesStay(c, st2, rec', st');
    TargetsStay(c, st2, st');
    InsStay(c, st2, rec', st', rec');
  }

  lemma {:induction false} TracedStart(c: Context, st: State, rec: Record)
    requires Started(c, st) && rec == Record(map[], [])
    ensures Traced(c, st, rec)
  {
  }

  // ------------------------------------------------------------------ steps of the pass

  /** A join is done: its list is frozen. */
  lemma {:induction false} JoinTraced(c: Context, start: State, st: State, rec: Record, offset: nat, n: nat, fall: bool, st': State, rec': Record)
    requires Inv(c, start, offset - 1, offset) && offset !in c.loops
    requires Progress(c, start, st, offset, n, offset, fall) && n == |start.pending[offset]|
    requires ListsOk(c, st, rec, offset, offset) && Traced(c, st, rec)
    requires st' == st.(pending := st.pending - {offset}) && rec'.created == rec.created
    requires rec'.frozen == if st.pending[offset] == [] then rec.frozen else rec.frozen[offset := st.pending[offset]]
    ensures Traced(c, st', rec') && Unlisted(c, st', ListAt(st', rec', offset), offset, st'.values)
  {
    hide Traced, Inv, NodesOk, ValuesListed;
    UnfoldInv(c, start, offset - 1, offset);
    JoinUnlisted(c, start, st, offset, n, offset, fall);
    FrozenTraced(c, st, rec, offset, st', rec');
    OpenUnlisted(c, st, rec, offset);
    var list := st.pending[offset];
    assert ListAt(st', rec', offset) == list;
    UnlistedStays(c, st, list, offset, st.values, st', list, st'.values);
  }

  lemma {:induction false} HeadUnlisted(c: Context, start: State, st: State, offset: nat, n: nat, fall: bool)
    requires HeadMerging(c, start, st, offset, n, fall) && n == |st.pending[offset]| && Inv(c, start, offset - 1, offset)
    ensures offset in st.pending && OpenTraced(c, st, offset)
  {
    hide Inv;
    UnfoldInv(c, start, offset - 1, offset);
    JoinUnlisted(c, start, st, offset, n, offset - 1, fall);
  }

  lemma {:induction false} HeadTakeTraced(c: Context, start: State, st: State, rec: Record, offset: nat, i: nat, r: SlotValue, fall: bool,
                                          st': State, rec': Record)
    requires Traced(c, st, rec) && HeadTaking(c, st, rec, offset, i) && Falling(c, start, offset, fall)
    requires HeadMerging(c, start, st, offset, i, fall) && i < |st.pending[offset]|
    requires EntryTaken(c, st, st', offset, i, r, fall, offset - 1)
    requires Renewed(|st.phis|, |st'.phis|, offset, st.pending[offset][i], r) && rec' == Renew(rec, offset, st.pending[offset][i], r)
    requires OptionsFrom(st.phis, st'.phis, r.value, Sources(st.pending[offset][i], r, st.values[r.slot], fall))
    requires AddsAt(st.phis, st'.phis, offset, r)
    ensures Traced(c, st', rec')
  {
    hide Traced, ListsOk, Progress, EntryTaken;
    TakeTraced(c, start, st, rec, offset, i, r, offset - 1, fall, st', rec');
  }

  /** No jumps to the head are pending: its list starts out empty. */
  lemma {:induction false} FreshTraced(c: Context, start: State, rec: Record, offset: nat, st: State)
    requires Traced(c, start, rec) && Inv(c, start, offset - 1, offset) && ListsOk(c, start, rec, offset, offset)
    requires offset !in start.pending && st == start.(pending := start.pending[offset := []])
    ensures Traced(c, st, rec) && OpenTraced(c, st, offset)
  {
    hide Unlisted, OutsDated, EntryTraced, NodesOk, ValuesListed;
    NoJumps(c, start, offset);
    assert forall t: nat :: ListAt(st, rec, t) == ListAt(start, rec, t);
    ListsStay(c, start, rec, st, rec);
    InsStay(c, start, rec, st, rec);
    TargetsStay(c, start, st);
    forall s: nat | c.Track(s) && s < |st.values|
      ensures BroughtEverywhere(c, st, offset, s, st.values[s])
    {
      assert BroughtEverywhere(c, start, offset, s, st.values[s]);
    }
  }

  /** A slot that the loop writes gets its loop phi. */
  lemma {:induction false} LoopPhiAssigned(c: Context, start: State, st: State, rec: Record, offset: nat, s: nat, fall: bool, v: SsaValue,
                                           st': State, rec': Record)
    requires HeadProgress(c, start, st, offset, s, fall) && c.Track(s) && c.WrittenIn(offset, s) && Falling(c, start, offset, fall)
    requires !(st.values[s].Phi? && st.values[s].offset == offset)
    requires HeadOpen(c, st, rec, offset) && HeadMatch(c, st, offset, start.values)
    requires Traced(c, st, rec) && OpenTraced(c, st, offset)
    requires |st'.phis| == |st.phis| + 1 && v == Phi(offset, |st.phis|) && st' == LoopAssign(st, st'.phis, offset, s, v)
    requires Grows(st.phis, st'.phis) && c.PhisOk(st'.phis) && st'.phis[|st.phis|].slot == s
    requires OptionsFrom(st.phis, st'.phis, v, if fall then {st.values[s]} else {})
    requires rec' == rec.(created := rec.created + [offset])
    ensures Traced(c, st', rec') && offset in st'.pending && OpenTraced(c, st', offset)
  {
    hide Traced, Unlisted, ListsOk, NodesOk, Received, LoopPhis, ListedOnce, OptionsFrom;
    NotListed(c, st, offset, s, start.values);
    UnlistedMatches(c, st.pending[offset], st.values, start.values);
    if fall {
      FallingArrives(c, start, st.outs, offset, s);
    }
    var st1 := st.(phis := st'.phis);
    LoopPhiTraced(c, st, rec, offset, s, st'.phis, fall, st1, rec');
    GrowHeadInv(c, st, offset, st'.phis, st1);
    OpenTracedGrows(c, st, offset, st1);
    FrozenKeys(c, st, rec, offset);
    LoopAssignTraced(c, st1, rec', offset, s, v, st');
  }

  lemma {:induction false} OpenTracedGrows(c: Context, st: State, offset: nat, st1: State)
    requires offset in st.pending && OpenTraced(c, st, offset) && st1 == st.(phis := st1.phis)
    ensures OpenTraced(c, st1, offset)
  {
    forall s: nat | c.Track(s) && s < |st1.values| && !HasEntry(st1.pending[offset], s)
      ensures BroughtEverywhere(c, st1, offset, s, st1.values[s])
    {
      assert BroughtEverywhere(c, st, offset, s, st.values[s]);
    }
  }

  lemma {:induction false} FrozenKeys(c: Context, st: State, rec: Record, offset: nat)
    requires HeadOpen(c, st, rec, offset)
    ensures forall t :: t in rec.frozen ==> t !in st.pending
  {
  }

  lemma {:induction false} HeadDoneTraced(c: Context, start: State, st: State, rec: Record, offset: nat, k: nat, fall: bool)
    requires HeadProgress(c, start, st, offset, k, fall) && k == |c.tracked| && HeadOpen(c, st, rec, offset)
    requires OpenTraced(c, st, offset)
    ensures Unlisted(c, st, ListAt(st, rec, offset), offset, st.values)
  {
    hide ListsOk, HeadInv, Received, BodyPending;
    forall s: nat | c.Track(s) && c.WrittenIn(offset, s)
      ensures HasEntry(st.pending[offset], s)
    {
      HeadPhiListed(c, start, st, offset, k, fall, s);
    }
    OpenUnlisted(c, st, rec, offset);
  }

  lemma {:induction false} HeadPhiListed(c: Context, start: State, st: State, offset: nat, k: nat, fall: bool, s: nat)
    requires HeadProgress(c, start, st, offset, k, fall) && s < k && c.Track(s) && c.WrittenIn(offset, s)
    ensures HasEntry(st.pending[offset], s)
  {
    var i :| 0 <= i < |st.pending[offset]| && st.pending[offset][i] == SlotValue(s, st.values[s]);
  }

  lemma {:induction false} TargetTraced(c: Context, st: State, rec: Record, from: nat, target: nat, i: nat, r: SlotValue, st': State, rec': Record,
                                        cur: nat, lim: nat)
    requires Traced(c, RecordOut(st, from), rec) && ListsOk(c, st, rec, cur, lim) && Shape(c, st)
    requires target in st.pending && i < |st.pending[target]|
    requires Edge(c.code, from, target) && r.slot == st.pending[target][i].slot
    requires Renewed(|st.phis|, |st'.phis|, target, st.pending[target][i], r) && rec' == Renew(rec, target, st.pending[target][i], r)
    requires OptionsFrom(st.phis, st'.phis, r.value, Sources(st.pending[target][i], r, st.values[r.slot], true))
    requires AddsAt(st.phis, st'.phis, target, r) && Grows(st.phis, st'.phis)
    requires st' == st.(phis := st'.phis, pending := st.pending[target := st.pending[target][i := r]])
    ensures Traced(c, RecordOut(st', from), rec')
  {
    hide Traced, OptionsFrom, NodesOk, ValuesListed, RecordOut;
    MergedTraced(c, st, rec, from, target, i, r, st', rec');
  }

  lemma {:induction false} JumpRecorded(c: Context, st: State, rec: Record, offset: nat, target: nat)
    requires Traced(c, st, rec) && ListsOk(c, st, rec, offset + 1, offset) && offset < target
    ensures Traced(c, Branched(st, offset, target), rec)
  {
    hide Traced, NodesOk, ValuesListed;
    JumpTraced(c, st, rec, offset, target, Branched(st, offset, target));
  }

  lemma {:induction false} FirstJumpRecorded(c: Context, st: State, rec: Record, offset: nat, target: nat, st': State)
    requires Traced(c, st, rec) && ListsOk(c, st, rec, offset + 1, offset) && target !in st.pending
    requires offset < target && JumpEdge(c.code, offset, target) && offset in st.outs
    requires st' == Branched(st.(pending := st.pending[target := []], branchTargets := st.branchTargets + [target]), offset, target)
    ensures Traced(c, st', rec)
  {
    hide Traced, NodesOk, ValuesListed;
    FirstJumpTraced(c, st, rec, offset, target, st');
  }

  /** On leaving the operation at the offset. */
  lemma {:induction false} LeavingTraced(c: Context, st: State, rec: Record, offset: nat, st': State)
    requires Traced(c, st, rec) && Shape(c, st) && Dated(c, st, offset, offset) && History(c, st, offset + 1, offset)
    requires st' == RecordOut(st, offset)
    ensures Traced(c, st', rec)
  {
    hide Traced, EdgesFlow, Effect;
    LeftTraced(c, st, rec, offset, st');
  }

  /** What the back edge of a loop can rely on. */
  lemma {:induction false} BackEdgeReady(c: Context, st: State, rec: Record, offset: nat, h: nat)
    requires Entered(c, st, offset) && Traced(c, st, rec) && offset < |c.code|
    requires JumpTargets(c.code[offset]) == [h] && h in c.loops && h < offset == c.loops[h]
    ensures Shape(c, st) && h in st.pending && st.ins != map[] && Settled(c, st, h) && Edge(c.code, offset, h)
    ensures Traced(c, RecordOut(st, offset), rec) && |st.values| == |c.tracked|
  {
    hide Traced, Bookkeeping, Threshold, Sourced, EdgesFlow, Effect;
    assert LoopKept(c, st, h, offset);
    KeptSettled(c, st, h, offset);
    LeavingTraced(c, st, rec, offset, RecordOut(st, offset));
  }

  lemma {:induction false} MergedFrame(c: Context, st: State, st': State, target: nat, n: nat)
    requires Shape(c, st) && target in st.pending && n == |st.pending[target]| && BranchMerged(c, st, st', target, n)
    ensures target in st'.pending && st'.values == st.values
  {
  }

  lemma {:induction false} CloseTraced(c: Context, st: State, rec: Record, offset: nat, h: nat, st': State, rec': Record)
    requires Traced(c, RecordOut(st, offset), rec) && ListsOk(c, st, rec, offset + 1, offset) && h in st.pending && h < offset
    requires st' == RecordOut(Branched(st.(pending := st.pending - {h}), offset, h), offset) && rec'.created == rec.created
    requires rec'.frozen == if st.pending[h] == [] then rec.frozen else rec.frozen[h := st.pending[h]]
    ensures Traced(c, st', rec')
  {
    hide Traced, NodesOk, ValuesListed;
    ClosedTraced(c, st, rec, offset, h, st', rec');
  }

  lemma {:induction false} TopFalling(c: Context, st: State, offset: nat, fall: bool)
    requires Top(c, st, offset) && offset < |c.code| && fall == FallsInto(c.code, c.reached, offset)
    ensures Falling(c, st, offset, fall)
  {
  }

  /** The merged values are recorded as those before the operation. */
  lemma {:induction false} MergingTraced(c: Context, start: State, st: State, rec: Record, offset: nat, st': State)
    requires Traced(c, st, rec) && Unlisted(c, st, ListAt(st, rec, offset), offset, st.values)
    requires Merging(c, start.values, st, rec, offset) && ValuesBefore(c, start, offset) && start.outs == st.outs
    requires Top(c, start, offset) && st.ins == start.ins && st' == RecordIn(st, offset)
    ensures Traced(c, st', rec)
  {
    hide Traced, Unlisted, ListsOk, ListedOnce, Matches, EdgesFlow, Effect, Inv, Dated, Sourced;
    EnteredTraced(c, st, rec, offset, start.values, st');
  }

  /** No join: nothing jumps to the operation. */
  lemma {:induction false} NoJoinTraced(c: Context, st: State, rec: Record, offset: nat)
    requires Top(c, st, offset) && offset !in st.pending && offset !in c.loops
    ensures Unlisted(c, st, ListAt(st, rec, offset), offset, st.values)
  {
    hide History, Threshold, ActiveLoops, Dated, Sourced;
    NoJumps(c, st, offset);
  }

  /** A write to a tracked variable. */
  lemma {:induction false} WriteTraced(c: Context, st: State, rec: Record, offset: nat, s: nat, st': State)
    requires Traced(c, st, rec) && ListsOk(c, st, rec, offset + 1, offset) && Entered(c, st, offset) && c.Track(s)
    requires s < |st.values| == |st.branchSize| && st' == Assign(st, s, Written(s, offset), offset)
    ensures Traced(c, st', rec)
  {
    hide NodesOk, ValuesListed, History, Dated, Sourced, InsTraced, NodesTraced, ListsTraced;
    BookkeepingMarks(c, st, s, offset);
    AssignTraced(c, st, rec, s, Written(s, offset), offset, st');
  }
}
