/**
 Lifetime segments of a variable and the queries on them (`live`, `firstWrite`,
 `onlyWrite`).  The linked list of segments is a sequence in list order.
 */
module Lifetimes {
  import opened Bytecode

  const UINT32_MAX: nat := 0xFFFF_FFFF

  datatype Lifetime = Lifetime(start: nat, end: nat, savedEnd: nat, loopTail: bool, write: bool)

  /**
   `alive` says which of the two list pointers is set: `lifetime` when the
   variable is live at the current offset, `saved` when it is dead there.
   */
  datatype LifetimeVariable = LifetimeVariable(alive: bool, segments: seq<Lifetime>, savedEnd: nat)

  /** Segments in order, each ending no later than the next one starts. */
  ghost predicate Sorted(segs: seq<Lifetime>) {
    && (forall i :: 0 <= i < |segs| ==> segs[i].start <= segs[i].end)
    && (forall i, j :: 0 <= i < j < |segs| ==> segs[i].end <= segs[j].start)
  }

  ghost predicate WriteAt(segs: seq<Lifetime>, o: nat) {
    exists i :: 0 <= i < |segs| && segs[i].write && segs[i].start == o
  }

  /** No two write segments start at the same offset. */
  ghost predicate DistinctWrites(segs: seq<Lifetime>) {
    forall i, j :: 0 <= i < j < |segs| && segs[i].write && segs[j].write ==> segs[i].start != segs[j].start
  }

  /** Some segment contains offset o. */
  ghost predicate Covers(segs: seq<Lifetime>, o: nat) {
    exists i :: 0 <= i < |segs| && segs[i].start <= o <= segs[i].end
  }

  /** `LifetimeVariable::live`: whether a segment is returned for the offset. */
  method Live(v: LifetimeVariable, offset: nat) returns (found: bool)
    requires Sorted(v.segments)
    ensures found <==> Covers(v.segments, offset)
                       || (v.alive && |v.segments| > 0 && offset <= v.segments[0].end)
  {
    if v.alive && |v.segments| > 0 && v.segments[0].end >= offset {
      return true;
    }
    var i := 0;
    while i < |v.segments| && v.segments[i].start <= offset
      invariant 0 <= i <= |v.segments|
      invariant forall j :: 0 <= j < i ==> v.segments[j].end < offset
    {
      if v.segments[i].end >= offset {
        return true;
      }
      i := i + 1;
    }
    found := false;
  }

  /** The first write to the variable in an inclusive range, UINT32_MAX if there is none. */
  method FirstWrite(v: LifetimeVariable, lo: nat, hi: nat) returns (offset: nat)
    requires Sorted(v.segments)
    ensures (forall o :: lo <= o <= hi ==> !WriteAt(v.segments, o)) ==> offset == UINT32_MAX
    ensures (exists o :: lo <= o <= hi && WriteAt(v.segments, o)) ==>
              lo <= offset <= hi && WriteAt(v.segments, offset)
              && (forall o :: lo <= o < offset ==> !WriteAt(v.segments, o))
  {
    var i := 0;
    while i < |v.segments| && v.segments[i].start <= hi
      invariant 0 <= i <= |v.segments|
      invariant forall j :: 0 <= j < i ==> !(v.segments[j].start >= lo && v.segments[j].write)
    {
      if v.segments[i].start >= lo && v.segments[i].write {
        assert WriteAt(v.segments, v.segments[i].start);
        return v.segments[i].start;
      }
      i := i + 1;
    }
    offset := UINT32_MAX;
  }

  /** The only write to the variable in a loop body, UINT32_MAX if it is not written exactly once. */
  method OnlyWrite(v: LifetimeVariable, lo: nat, hi: nat) returns (offset: nat)
    requires Sorted(v.segments) && DistinctWrites(v.segments) && hi < UINT32_MAX
    ensures offset != UINT32_MAX ==>
              lo <= offset <= hi && WriteAt(v.segments, offset)
              && forall o :: lo <= o <= hi && WriteAt(v.segments, o) ==> o == offset
    ensures offset == UINT32_MAX ==>
              (forall o :: lo <= o <= hi ==> !WriteAt(v.segments, o))
              || (exists o, p :: lo <= o < p <= hi && WriteAt(v.segments, o) && WriteAt(v.segments, p))
  {
    offset := UINT32_MAX;
    ghost var first := 0;
    var i := 0;
    while i < |v.segments| && v.segments[i].start <= hi
      invariant 0 <= i <= |v.segments|
      invariant offset == UINT32_MAX ==>
                  forall j :: 0 <= j < i ==> !(v.segments[j].start >= lo && v.segments[j].write)
      invariant offset != UINT32_MAX ==>
                  && 0 <= first < i && v.segments[first].write && v.segments[first].start == offset && lo <= offset <= hi
                  && forall j :: 0 <= j < i && v.segments[j].start >= lo && v.segments[j].write ==> j == first
    {
      if v.segments[i].start >= lo && v.segments[i].write {
        if offset != UINT32_MAX {
          assert WriteAt(v.segments, offset) && WriteAt(v.segments, v.segments[i].start);
          return UINT32_MAX;
        }
        offset := v.segments[i].start;
        first := i;
      }
      i := i + 1;
    }
  }

  /** The write segments of a slot start exactly at the reached operations that write it. */
  ghost predicate WritesIndexed(code: Script, reached: seq<bool>, s: nat, segs: seq<Lifetime>)
    requires |reached| == |code|
  {
    forall o: nat :: WriteAt(segs, o) <==> o < |code| && reached[o] && Writes(code[o], s)
  }

  /** The first reached operation in an inclusive range that writes the slot, UINT32_MAX if there is none. */
  ghost function ScanFirst(code: Script, reached: seq<bool>, s: nat, lo: nat, hi: nat): nat
    requires |reached| == |code|
    decreases |code| - lo
  {
    if lo > hi || lo >= |code| then UINT32_MAX
    else if reached[lo] && Writes(code[lo], s) then lo
    else ScanFirst(code, reached, s, lo + 1, hi)
  }

  /** The only one, UINT32_MAX if there is none or a second one. */
  ghost function ScanOnly(code: Script, reached: seq<bool>, s: nat, lo: nat, hi: nat): nat
    requires |reached| == |code|
  {
    var first := ScanFirst(code, reached, s, lo, hi);
    if first != UINT32_MAX && ScanFirst(code, reached, s, first + 1, hi) == UINT32_MAX then first else UINT32_MAX
  }

  /** Segments that index the writes of a script answer both queries as a scan of the code does. */
  lemma {:induction false} ScanFacts(code: Script, reached: seq<bool>, s: nat, segs: seq<Lifetime>, lo: nat, hi: nat)
    requires |reached| == |code| <= UINT32_MAX && WritesIndexed(code, reached, s, segs)
    ensures var r := ScanFirst(code, reached, s, lo, hi);
            if r == UINT32_MAX then forall o :: lo <= o <= hi ==> !WriteAt(segs, o)
            else lo <= r <= hi && WriteAt(segs, r) && forall o :: lo <= o < r ==> !WriteAt(segs, o)
    decreases |code| - lo
  {
    if lo <= hi && lo < |code| {
      ScanFacts(code, reached, s, segs, lo + 1, hi);
    }
  }

  method FirstWriteInCode(code: Script, reached: seq<bool>, s: nat, v: LifetimeVariable, lo: nat, hi: nat) returns (offset: nat)
    requires |reached| == |code| <= UINT32_MAX && Sorted(v.segments) && WritesIndexed(code, reached, s, v.segments)
    ensures offset == ScanFirst(code, reached, s, lo, hi)
  {
    offset := FirstWrite(v, lo, hi);
    ScanFacts(code, reached, s, v.segments, lo, hi);
  }

  method OnlyWriteInCode(code: Script, reached: seq<bool>, s: nat, v: LifetimeVariable, lo: nat, hi: nat) returns (offset: nat)
    requires |reached| == |code| <= UINT32_MAX && Sorted(v.segments) && DistinctWrites(v.segments)
    requires WritesIndexed(code, reached, s, v.segments) && hi < UINT32_MAX
    ensures offset == ScanOnly(code, reached, s, lo, hi)
  {
    offset := OnlyWrite(v, lo, hi);
    ScanFacts(code, reached, s, v.segments, lo, hi);
    ghost var first := ScanFirst(code, reached, s, lo, hi);
    ScanFacts(code, reached, s, v.segments, first + 1, hi);
  }
}
