/**
 Array objects with two representations: dense storage with a capacity, an
 initialised prefix and holes in it, and slow storage that maps indexes to
 property slots.  The array methods have a fast path on dense storage and a
 path that goes element by element; both are proved against one abstract array.
 */
module DenseArrays {
  const UINT32_MAX: nat := 0xFFFF_FFFF
  const MIN_SPARSE_INDEX: nat := 256
  const NELEMENTS_LIMIT: nat := 0x1000_0000

  /** An element that is present, or a hole. */
  datatype Slot<V> = Hole | Elem(value: V)

  datatype Ensured = Ok | Sparse | Failed

  /** The storage as a value. */
  datatype Store<V> = Dense(elems: seq<Slot<V>>) | Slow(shape: map<nat, nat>, slots: seq<V>) {
    /** Properties have slots of their own. */
    ghost predicate Ok() {
      Slow? ==>
        (forall i :: i in shape ==> shape[i] < |slots|)
        && (forall i, j :: i in shape && j in shape && i != j ==> shape[i] != shape[j])
    }

    /** The element at an index, whatever the length. */
    ghost function At(i: nat): Slot<V>
      requires Ok()
    {
      match this
      case Dense(elems) => if i < |elems| then elems[i] else Hole
      case Slow(shape, slots) => if i in shape then Elem(slots[shape[i]]) else Hole
    }

    /** The elements below a length. */
    ghost function Take(n: nat): (s: seq<Slot<V>>)
      requires Ok()
      ensures |s| == n && forall i :: 0 <= i < n ==> s[i] == At(i)
    {
      seq(n, i requires i >= 0 => At(i))
    }
  }

  /** Capacities grow by at least an eighth, up to the last multiple of 2^17 below the limit. */
  predicate CannotGrow(old_: nat, required: nat) {
    required > 0xFFE_0000 || old_ + old_ / 8 > 0xFFE_0000
  }

  /**
   The capacity that growing to at least required gives, or none: double up to 2^20,
   an eighth more beyond, and not much more than that or what is required.
   */
  function GrownCapacity(old_: nat, required: nat): (c: nat)
    ensures c == 0 <==> CannotGrow(old_, required)
    ensures c > 0 ==> old_ <= c && required <= c < NELEMENTS_LIMIT && 8 <= c
    ensures c > 0 ==> old_ + old_ / 8 <= c && (old_ <= 0x10_0000 ==> 2 * old_ <= c)
    ensures c > 8 ==> c < required + 0x2_0000 || c < old_ + (if old_ <= 0x10_0000 then old_ else old_ / 8) + 0x2_0000
  {
    var next := if old_ <= 0x10_0000 then old_ * 2 else old_ + old_ / 8;
    var wanted := if required > next then required else next;
    var actual := if wanted >= 0x2_0000 then (wanted + 0x1_FFFF) / 0x2_0000 * 0x2_0000
                  else if wanted < 8 then 8 else wanted;
    if actual >= NELEMENTS_LIMIT || actual < old_ || actual < required then 0 else actual
  }

  class JsArray<V> {
    var length: nat
    var dense: bool
    var elements: array<Slot<V>>
    var initialized: nat
    var shape: map<nat, nat>
    var slots: seq<V>
    /** An enumeration of the array may be in progress. */
    var iterated: bool

    ghost predicate Valid()
      reads this, elements
    {
      length <= UINT32_MAX && initialized <= elements.Length < NELEMENTS_LIMIT && View().Ok()
    }

    ghost function View(): Store<V>
      requires initialized <= elements.Length
      reads this, elements
    {
      if dense then Dense(elements[..initialized]) else Slow(shape, slots)
    }

    ghost function At(i: nat): Slot<V>
      requires Valid()
      reads this, elements
    {
      View().At(i)
    }

    /** The abstract array. */
    ghost function Contents(): (s: seq<Slot<V>>)
      requires Valid()
      reads this, elements
      ensures |s| == length && forall i :: 0 <= i < length ==> s[i] == At(i)
    {
      View().Take(length)
    }

    /** Nothing is stored beyond the length. */
    ghost predicate Tidy()
      requires Valid()
      reads this, elements
    {
      forall i: nat :: i >= length ==> At(i) == Hole
    }

    /** A dense array with the given elements. */
    constructor Copied(elems: seq<Slot<V>>)
      requires |elems| < NELEMENTS_LIMIT
      ensures Valid() && Tidy() && Contents() == elems && fresh(elements)
    {
      length, dense, initialized := |elems|, true, |elems|;
      elements := new Slot<V>[|elems|](i requires 0 <= i < |elems| => elems[i]);
      shape, slots, iterated := map[], [], false;
      new;
      assert elements[..] == elems;
    }

    /** An array of the given length with room for its elements, all holes; without room if there are too many. */
    constructor Allocated(n: nat)
      requires n <= UINT32_MAX
      ensures Valid() && Tidy() && length == n && fresh(elements) && forall i: nat :: At(i) == Hole
      ensures n < NELEMENTS_LIMIT ==> elements.Length == n
    {
      length, dense, initialized := n, true, 0;
      elements := new Slot<V>[if n < NELEMENTS_LIMIT then n else 0];
      shape, slots, iterated := map[], [], false;
    }

    // ---- storage ----

    /** All elements are as before. */
    twostate predicate SameElements()
      requires old(Valid()) && Valid()
      reads this, elements
    {
      forall i: nat {:trigger At(i)} :: At(i) == old(At(i))
    }

    /** Fill with holes up to index + extra. */
    method EnsureInitialized(index: nat, extra: nat)
      requires Valid() && dense && index + extra <= elements.Length
      modifies this`initialized, elements
      ensures Valid() && SameElements()
      ensures initialized == if old(initialized) < index + extra then index + extra else old(initialized)
    {
      if initialized < index + extra {
        var i := initialized;
        while i < index + extra
          invariant initialized == old(initialized) <= i <= index + extra
          invariant forall j :: 0 <= j < initialized ==> elements[j] == old(elements[j])
          invariant forall j :: initialized <= j < i ==> elements[j] == Hole
        {
          elements[i] := Hole;
          i := i + 1;
        }
        initialized := index + extra;
        forall j: nat
          ensures At(j) == old(At(j))
        {
          if j < initialized {
            assert elements[..initialized][j] == elements[j];
          }
        }
      }
    }

    /** Move to larger storage. */
    method Grow(required: nat) returns (ok: bool)
      requires Valid() && dense && elements.Length <= required
      modifies this`elements
      ensures Valid() && (elements == old(elements) || fresh(elements))
      ensures ok <==> !CannotGrow(old(elements.Length), required)
      ensures ok ==> elements.Length == GrownCapacity(old(elements.Length), required)
      ensures ok ==> elements[..initialized] == old(elements[..initialized])
      ensures !ok ==> elements == old(elements)
    {
      var capacity := GrownCapacity(elements.Length, required);
      if capacity == 0 && required > 0 {
        return false;
      }
      var larger := new Slot<V>[capacity];
      forall i | 0 <= i < initialized {
        larger[i] := elements[i];
      }
      elements := larger;
      return true;
    }

    /** Too few of the required elements would be present. */
    method WillBeSparse(required: nat, hint: nat) returns (sparse: bool)
      requires Valid() && dense && required >= elements.Length
      ensures sparse <==> required >= NELEMENTS_LIMIT || Present(elements[..initialized]) + hint < required / 4
    {
      if required >= NELEMENTS_LIMIT {
        return true;
      }
      var minimal := required / 4;
      if hint >= minimal {
        return false;
      }
      minimal := minimal - hint;
      ghost var elems := elements[..initialized];
      PresentBound(elems);
      if minimal > elements.Length {
        return true;
      }
      var enough := HasPresent(minimal);
      return !enough;
    }

    /** At least minimal elements are present. */
    method HasPresent(minimal: nat) returns (enough: bool)
      requires Valid() && dense && minimal > 0
      ensures enough <==> Present(elements[..initialized]) >= minimal
    {
      ghost var elems := elements[..initialized];
      var left, i := minimal, 0;
      while i < initialized
        invariant 0 <= i <= initialized && left > 0 && left + Present(elems[..i]) == minimal
      {
        PresentStep(elems, i);
        if elements[i].Elem? {
          left := left - 1;
          if left == 0 {
            PresentMono(elems, i + 1);
            return true;
          }
        }
        i := i + 1;
      }
      assert elems[..initialized] == elems;
      return false;
    }

    /** Have storage for the elements from index to index + extra, initialised. */
    method EnsureElements(index: nat, extra: nat) returns (r: Ensured)
      requires Valid() && dense && index <= UINT32_MAX && extra <= UINT32_MAX
      modifies this`elements, this`initialized, elements
      ensures Valid() && SameElements() && (elements == old(elements) || fresh(elements))
      ensures r == Ok ==> index + extra <= initialized
      ensures r == Ok && index + extra <= old(elements.Length) ==> elements.Length == old(elements.Length)
      ensures r == Ok && index + extra > old(elements.Length) ==> elements.Length == GrownCapacity(old(elements.Length), index + extra)
      ensures elements.Length >= old(elements.Length)
      ensures r != Ok ==> index + extra > old(elements.Length) && elements == old(elements) && initialized == old(initialized)
      ensures r != Ok ==> elements[..initialized] == old(elements[..initialized])
      ensures r == Sparse <==> (
        index + extra > UINT32_MAX
        || (index + extra > old(elements.Length) && TooSparse(old(elements[..initialized]), index + extra, extra)))
      ensures r == Failed <==> index + extra > old(elements.Length) && r != Sparse && CannotGrow(old(elements.Length), index + extra)
      ensures initialized >= old(initialized)
      ensures initialized <= old(initialized) || initialized <= index + extra
    {
      var required := (index + extra) % 0x1_0000_0000;
      if extra == 1 {
        if index < elements.Length {
          EnsureInitialized(index, 1);
          return Ok;
        }
        if required == 0 {
          return Sparse;
        }
      } else {
        if required < index {
          return Sparse;
        }
        if required <= elements.Length {
          EnsureInitialized(index, extra);
          return Ok;
        }
      }
      r := GrowFor(index, extra);
    }

    /** More storage is needed than there is: refuse if it would be sparse, else grow. */
    method GrowFor(index: nat, extra: nat) returns (r: Ensured)
      requires Valid() && dense && elements.Length < index + extra <= UINT32_MAX
      modifies this`elements, this`initialized
      ensures Valid() && SameElements() && (elements == old(elements) || fresh(elements))
      ensures r == Ok ==> initialized == index + extra && elements.Length == GrownCapacity(old(elements.Length), index + extra)
      ensures r != Ok ==> elements == old(elements) && initialized == old(initialized)
      ensures r == Sparse <==> TooSparse(old(elements[..initialized]), index + extra, extra)
      ensures r == Failed <==> r != Sparse && CannotGrow(old(elements.Length), index + extra)
    {
      if index + extra > MIN_SPARSE_INDEX {
        var sparse := WillBeSparse(index + extra, extra);
        if sparse {
          return Sparse;
        }
      }
      var ok := Grow(index + extra);
      if !ok {
        return Failed;
      }
      assert SameElements();
      EnsureInitialized(index, extra);
      return Ok;
    }

    /** To slow storage, packing the elements that are present into successive slots. */
    method MakeSlow()
      requires Valid() && dense
      modifies this`dense, this`shape, this`slots
      ensures Valid() && !dense && SameElements()
    {
      shape, slots := map[], [];
      var i := 0;
      while i < initialized
        invariant 0 <= i <= initialized
        invariant forall j :: j in shape <==> 0 <= j < i && elements[j].Elem?
        invariant forall j :: j in shape ==> shape[j] < |slots| && Elem(slots[shape[j]]) == elements[j]
        invariant forall j, k :: j in shape && k in shape && j != k ==> shape[j] != shape[k]
      {
        if elements[i].Elem? {
          shape := shape[i := |slots|];
          slots := slots + [elements[i].value];
        }
        i := i + 1;
      }
      dense := false;
    }

    // ---- elements ----

    method GetElement(i: nat) returns (s: Slot<V>)
      requires Valid()
      ensures s == At(i)
    {
      if dense {
        s := if i < initialized then elements[i] else Hole;
      } else {
        s := if i in shape then Elem(slots[shape[i]]) else Hole;
      }
    }

    /** The array was dense, and refuses to grow to n elements for some more of them. */
    twostate predicate Refused(n: nat, extra: nat)
      requires old(Valid())
      reads this, elements
    {
      && old(dense) && n > old(elements.Length)
      && !TooSparse(old(elements[..initialized]), n, extra) && CannotGrow(old(elements.Length), n)
    }

    /** The array was dense, without room for n elements, and their number is near the limit. */
    twostate predicate NoRoom(n: nat)
      reads this, elements
    {
      old(dense) && n > old(elements.Length) && n + n / 8 > 0xFFE_0000
    }

    /** Slow storage stays slow, and dense storage keeps its capacity. */
    twostate predicate Keeps()
      reads this, elements
    {
      (dense ==> old(dense)) && elements.Length >= old(elements.Length)
    }

    /** Only the element at i differs. */
    twostate predicate OnlyAt(i: nat, s: Slot<V>)
      requires old(Valid()) && Valid()
      reads this, elements
    {
      At(i) == s && forall j: nat {:trigger At(j)} :: j != i ==> At(j) == old(At(j))
    }

    method SetElement(i: nat, v: V) returns (ok: bool)
      requires Valid() && i < UINT32_MAX
      modifies this, elements
      ensures Valid() && (elements == old(elements) || fresh(elements)) && iterated == old(iterated)
      ensures ok ==> OnlyAt(i, Elem(v)) && length == if i >= old(length) then i + 1 else old(length)
      ensures ok <==> !Refused(i + 1, 1)
      ensures !ok ==> NoRoom(i + 1)
      ensures dense <==> old(dense) && (i < old(elements.Length) || !TooSparse(old(elements[..initialized]), i + 1, 1))
      ensures ok && dense ==> i < elements.Length
      ensures Keeps()
    {
      if dense {
        var r := EnsureElements(i, 1);
        if r == Ok {
          if i >= length {
            StoreLength(i + 1);
          }
          StoreDense(i, Elem(v));
          return true;
        }
        if r == Failed {
          return false;
        }
        MakeSlow();
      }
      SetSlow(i, v);
      return true;
    }

    /** Write an initialised element. */
    method StoreDense(i: nat, s: Slot<V>)
      requires Valid() && dense && i < initialized
      modifies elements
      ensures Valid() && OnlyAt(i, s)
    {
      elements[i] := s;
      assert elements[..initialized] == old(elements[..initialized])[i := s];
    }

    /** Set a property of slow storage, which may be a new one. */
    method SetSlow(i: nat, v: V)
      requires Valid() && !dense && i < UINT32_MAX
      modifies this`length, this`shape, this`slots
      ensures Valid() && OnlyAt(i, Elem(v)) && length == if i >= old(length) then i + 1 else old(length)
    {
      if i in shape {
        slots := slots[shape[i] := v];
      } else {
        shape := shape[i := |slots|];
        slots := slots + [v];
      }
      if i >= length {
        length := i + 1;
      }
    }

    method DeleteElement(i: nat)
      requires Valid()
      modifies this`shape, elements
      ensures Valid() && OnlyAt(i, Hole)
    {
      if dense {
        if i < initialized {
          StoreDense(i, Hole);
        }
      } else {
        shape := shape - {i};
      }
    }

    /** Set an element or make it a hole. */
    method SetOrDelete(i: nat, s: Slot<V>) returns (ok: bool)
      requires Valid() && i < UINT32_MAX
      modifies this, elements
      ensures Valid() && (elements == old(elements) || fresh(elements)) && iterated == old(iterated)
      ensures ok ==> OnlyAt(i, s) && length >= old(length) && (length == old(length) || length == i + 1)
      ensures !ok ==> NoRoom(i + 1) && s.Elem?
      ensures s.Hole? ==> elements == old(elements) && initialized == old(initialized) && dense == old(dense)
      ensures s.Elem? ==> (ok <==> !Refused(i + 1, 1))
      ensures ok && dense && s.Elem? ==> elements.Length > i
      ensures Keeps()
    {
      if s.Hole? {
        DeleteElement(i);
        ok := true;
      } else {
        ok := SetElement(i, s.value);
      }
    }

    /** Copy an element, or the lack of it, from one index to another. */
    method CopyElement(from: nat, to: nat) returns (ok: bool, s: Slot<V>)
      requires Valid() && to < UINT32_MAX
      modifies this, elements
      ensures Valid() && (elements == old(elements) || fresh(elements)) && iterated == old(iterated)
      ensures s == old(At(from))
      ensures ok ==> OnlyAt(to, s) && length >= old(length) && (length == old(length) || length == to + 1)
      ensures !ok ==> NoRoom(to + 1) && to > from
      ensures s.Hole? ==> ok && elements == old(elements) && initialized == old(initialized) && dense == old(dense)
      ensures s.Elem? ==> (ok <==> !Refused(to + 1, 1))
      ensures ok && dense && s.Elem? ==> elements.Length > to
      ensures Keeps()
    {
      s := GetElement(from);
      ok := SetOrDelete(to, s);
    }

    /** Move to smaller storage. */
    method Shrink(capacity: nat)
      requires Valid() && dense && initialized <= capacity <= elements.Length
      modifies this`elements
      ensures Valid() && (elements == old(elements) || fresh(elements)) && SameElements() && elements.Length >= capacity
      ensures elements.Length == 8 || elements.Length == capacity || elements.Length == old(elements.Length) <= 8
      ensures capacity >= 8 ==> elements.Length == capacity
    {
      var c := if capacity < 8 then 8 else capacity;
      if c < elements.Length {
        var smaller := new Slot<V>[c];
        forall i | 0 <= i < initialized {
          smaller[i] := elements[i];
        }
        elements := smaller;
        assert elements[..initialized] == old(elements[..initialized]);
      }
    }

    /** Drop the initialised elements from n on. */
    method Truncate(n: nat)
      requires Valid() && dense && n <= initialized
      modifies this`initialized
      ensures Valid() && initialized == n
      ensures forall i: nat {:trigger At(i)} :: At(i) == if i < n then old(At(i)) else Hole
    {
      initialized := n;
      assert elements[..n] == old(elements[..initialized])[..n];
    }

    /** The setter of the length: elements beyond a smaller length are dropped. */
    method SetLength(n: nat)
      requires Valid() && n <= UINT32_MAX
      modifies this, elements
      ensures Valid() && length == n && (elements == old(elements) || fresh(elements)) && iterated == old(iterated)
      ensures n >= old(length) ==> SameElements()
      ensures n < old(length) && old(Tidy()) ==> forall i: nat {:trigger At(i)} :: At(i) == if i < n then old(At(i)) else Hole
    {
      if n < length {
        if dense {
          if initialized > n {
            Truncate(n);
          }
          assert forall i: nat {:trigger At(i)} :: At(i) == if i < n then old(At(i)) else Hole;
          if elements.Length > n {
            Shrink(n);
          }
        } else {
          DeleteDown(n, length);
          assert old(Tidy()) ==> forall i: nat {:trigger At(i)} :: At(i) == if i < n then old(At(i)) else Hole;
        }
      }
      StoreLength(n);
    }

    // ---- reverse ----

    /** The elements in reverse order; the length stays. */
    method Reverse() returns (ok: bool)
      requires Valid() && Tidy()
      modifies this, elements
      ensures Valid() && iterated == old(iterated)
      ensures ok ==> Tidy() && Contents() == Reversed(old(Contents()))
      ensures !ok ==> NoRoom(old(length))
      ensures !TooSparse(old(elements[..initialized]), old(length), 0) ==> (ok <==> !Refused(old(length), 0))
    {
      var len := length;
      if dense && (len == 0 || elements.Length == 0) {
        return true;
      }
      ok := ReverseElements(len);
    }

    method ReverseElements(len: nat) returns (ok: bool)
      requires Valid() && len == length && (dense ==> len > 0)
      modifies this, elements
      ensures Valid() && iterated == old(iterated)
      ensures ok ==> length == len
      ensures ok ==> forall i: nat {:trigger At(i)} :: At(i) == if i < len then old(At(len - 1 - i)) else old(At(i))
      ensures !ok ==> NoRoom(len)
      ensures !TooSparse(old(elements[..initialized]), len, 0) ==> (ok <==> !Refused(len, 0))
    {
      if dense {
        var r := EnsureElements(len, 0);
        if r == Failed {
          return false;
        }
        if r == Ok {
          ReverseDense(len);
          return true;
        }
      }
      ok := ReverseSlowly(len);
    }

    method ReverseDense(len: nat)
      requires Valid() && dense && len == length && 0 < len <= initialized
      modifies elements
      ensures Valid()
      ensures forall i: nat {:trigger At(i)} :: At(i) == if i < len then old(At(len - 1 - i)) else old(At(i))
    {
      ReversePrefix(elements, len);
    }

    method ReverseSlowly(len: nat) returns (ok: bool)
      requires Valid() && len == length
      modifies this, elements
      ensures Valid() && iterated == old(iterated)
      ensures ok ==> length == len
      ensures ok ==> forall i: nat {:trigger At(i)} :: At(i) == if i < len then old(At(len - 1 - i)) else old(At(i))
      ensures !ok ==> NoRoom(len)
    {
      hide JsArray.At;
      var i, half := 0, len / 2;
      while i < half
        invariant 0 <= i <= half && Valid() && length == len && iterated == old(iterated)
        invariant (elements == old(elements) || fresh(elements)) && Keeps()
        invariant forall j: nat {:trigger At(j)} :: At(j) == if j < i || len - i <= j < len then old(At(len - 1 - j)) else old(At(j))
      {
        ok := SwapElements(i, len - i - 1);
        if !ok {
          return;
        }
        i := i + 1;
      }
      ok := true;
    }

    method SwapElements(i: nat, j: nat) returns (ok: bool)
      requires Valid() && i < j < length
      modifies this, elements
      ensures Valid() && iterated == old(iterated) && (elements == old(elements) || fresh(elements))
      ensures ok ==> length == old(length) && At(i) == old(At(j)) && At(j) == old(At(i))
      ensures ok ==> forall k: nat {:trigger At(k)} :: k != i && k != j ==> At(k) == old(At(k))
      ensures !ok ==> NoRoom(j + 1)
      ensures Keeps()
    {
      var low := GetElement(i);
      var high := GetElement(j);
      ok := SetOrDelete(j, low);
      if ok {
        ok := SetOrDelete(i, high);
      }
    }

    // ---- shift and unshift ----

    /** Copy elements, in the direction that keeps overlapping ranges apart. */
    method MoveElements(dst: nat, src: nat, count: nat)
      requires Valid() && dense && dst + count <= initialized && src + count <= initialized
      modifies elements
      ensures Valid()
      ensures forall i: nat {:trigger At(i)} :: At(i) == if dst <= i < dst + count then old(At(i - dst + src)) else old(At(i))
    {
      if dst < src {
        MoveDown(elements, dst, src, count);
      } else {
        MoveUp(elements, dst, src, count);
      }
    }

    /** Remove and return the first element; a hole stands for undefined. */
    method Shift() returns (first: Slot<V>)
      requires Valid() && Tidy()
      modifies this, elements
      ensures Valid() && iterated == old(iterated) && Tidy()
      ensures old(length) == 0 ==> length == 0 && first == Hole
      ensures old(length) > 0 ==> first == old(Contents())[0] && Contents() == old(Contents())[1..]
    {
      first := Hole;
      if length == 0 {
        SetLength(0);
        return Hole;
      }
      var last := length - 1;
      if dense && last < elements.Length && 0 < initialized {
        first := elements[0];
        ShiftDense(last);
        forall i | 0 <= i < last
          ensures Contents()[i] == old(Contents())[1..][i]
        {
          assert At(i) == old(At(i + 1));
        }
        return first;
      }
      first := GetElement(0);
      SlideDown(last);
      SetLength(last);
    }

    /** Move the initialised elements down by one. */
    method ShiftDense(last: nat)
      requires Valid() && dense && 0 < initialized && last <= length
      modifies this`initialized, this`length, elements
      ensures Valid() && length == last && forall i: nat {:trigger At(i)} :: At(i) == old(At(i + 1))
    {
      var n := initialized - 1;
      MoveElements(0, 1, n);
      Truncate(n);
      StoreLength(last);
    }

    /** The length alone. */
    method StoreLength(n: nat)
      requires Valid() && n <= UINT32_MAX
      modifies this`length
      ensures Valid() && length == n && SameElements()
    {
      length := n;
    }

    /** Move all elements down by one, and delete the last. */
    method SlideDown(last: nat)
      requires Valid() && Tidy() && last + 1 == length
      modifies this, elements
      ensures Valid() && iterated == old(iterated) && (elements == old(elements) || fresh(elements))
      ensures length == old(length) && forall i: nat {:trigger At(i)} :: At(i) == if i < last then old(At(i + 1)) else Hole
    {
      var s := CopyDown(last);
      if s.Elem? {
        DeleteElement(last);
      }
    }

    /** Copy each element to the index below; the last one read is returned. */
    method CopyDown(last: nat) returns (s: Slot<V>)
      requires Valid() && last < length
      modifies this, elements
      ensures Valid() && iterated == old(iterated) && (elements == old(elements) || fresh(elements))
      ensures length == old(length) && s == old(At(last))
      ensures forall j: nat {:trigger At(j)} :: At(j) == if j < last then old(At(j + 1)) else old(At(j))
    {
      s := GetElement(0);
      var i := 0;
      while i < last
        invariant 0 <= i <= last && Valid() && length == old(length) && iterated == old(iterated)
        invariant elements == old(elements) || fresh(elements)
        invariant s == old(At(i))
        invariant forall j: nat {:trigger At(j)} :: At(j) == if j < i then old(At(j + 1)) else old(At(j))
      {
        var ok;
        ok, s := CopyElement(i + 1, i);
        i := i + 1;
      }
    }

    /** Set the elements from start on. */
    method InitElements(start: nat, items: seq<V>) returns (ok: bool)
      requires Valid() && start + |items| <= UINT32_MAX
      modifies this, elements
      ensures Valid() && iterated == old(iterated) && (elements == old(elements) || fresh(elements))
      ensures ok ==> forall i: nat {:trigger At(i)} :: At(i) == if start <= i < start + |items| then Elem(items[i - start]) else old(At(i))
      ensures ok ==> length == if |items| > 0 && old(length) < start + |items| then start + |items| else old(length)
      ensures !ok ==> NoRoom(start + |items|)
      ensures |items| > 0 && !TooSparse(old(elements[..initialized]), start + |items|, |items|) ==>
        (ok <==> !Refused(start + |items|, |items|))
    {
      if |items| == 0 {
        return true;
      }
      if dense {
        var r := EnsureElements(start, |items|);
        if r == Failed {
          return false;
        }
        if r == Ok {
          if start + |items| > length {
            StoreLength(start + |items|);
          }
          CopyElements(start, items);
          return true;
        }
      }
      ok := SetElements(start, items);
    }

    /** Write initialised elements. */
    method CopyElements(start: nat, items: seq<V>)
      requires Valid() && dense && start + |items| <= initialized
      modifies elements
      ensures Valid()
      ensures forall i: nat {:trigger At(i)} :: At(i) == if start <= i < start + |items| then Elem(items[i - start]) else old(At(i))
    {
      forall i | 0 <= i < |items| {
        elements[start + i] := Elem(items[i]);
      }
    }

    /** Set the elements one by one. */
    method SetElements(start: nat, items: seq<V>) returns (ok: bool)
      requires Valid() && start + |items| <= UINT32_MAX
      modifies this, elements
      ensures Valid() && iterated == old(iterated) && (elements == old(elements) || fresh(elements))
      ensures ok ==> forall i: nat {:trigger At(i)} :: At(i) == if start <= i < start + |items| then Elem(items[i - start]) else old(At(i))
      ensures ok ==> length == if |items| > 0 && old(length) < start + |items| then start + |items| else old(length)
      ensures !ok ==> NoRoom(start + |items|)
    {
      var k := 0;
      while k < |items|
        invariant 0 <= k <= |items| && Valid() && iterated == old(iterated)
        invariant (elements == old(elements) || fresh(elements)) && Keeps()
        invariant forall i: nat {:trigger At(i)} :: At(i) == if start <= i < start + k then Elem(items[i - start]) else old(At(i))
        invariant length == if k > 0 && old(length) < start + k then start + k else old(length)
      {
        ok := SetElement(start + k, items[k]);
        if !ok {
          return;
        }
        k := k + 1;
      }
      ok := true;
    }

    /** Put the items in front. */
    method Unshift(items: seq<V>) returns (ok: bool)
      requires Valid() && Tidy() && length + |items| <= UINT32_MAX
      modifies this, elements
      ensures Valid() && iterated == old(iterated)
      ensures ok ==> Tidy() && Contents() == Elems(items) + old(Contents())
      ensures !ok ==> NoRoom(old(length) + |items|)
      ensures 0 < |items| < NELEMENTS_LIMIT ==> (ok <==> !FrontRefused(|items|))
    {
      var len, n := length, |items|;
      ok := true;
      if n > 0 {
        ok := PutInFront(items);
        if !ok {
          return;
        }
      }
      SetLength(len + n);
    }

    /** Make room in front if there are elements, and write the items there. */
    method PutInFront(items: seq<V>) returns (ok: bool)
      requires Valid() && Tidy() && length + |items| <= UINT32_MAX && |items| > 0
      modifies this, elements
      ensures Valid() && iterated == old(iterated) && (elements == old(elements) || fresh(elements))
      ensures ok ==> old(length) <= length <= old(length) + |items|
      ensures ok ==> forall i: nat {:trigger At(i)} :: At(i) == if i < |items| then Elem(items[i]) else old(At(i - |items|))
      ensures !ok ==> NoRoom(old(length) + |items|)
      ensures |items| < NELEMENTS_LIMIT ==> (ok <==> !FrontRefused(|items|))
    {
      hide JsArray.At, Top, TooSparse, CannotGrow;
      if dense {
        TopBelow();
        if |items| < NELEMENTS_LIMIT && Top(elements[..initialized]) == 0 {
          NoneSparse(elements[..initialized], |items|);
        }
      }
      ok := true;
      if length > 0 {
        ok := MakeRoom(|items|);
        if !ok {
          return;
        }
      }
      ok := InitElements(0, items);
    }

    /**
     The array was dense and refuses to move its elements up by n: all at once, or one by
     one if most of the room would be empty.
     */
    twostate predicate RoomRefused(n: nat)
      requires old(Valid())
      reads this, elements
    {
      if TooSparse(old(elements[..initialized]), old(length) + n, n) then TopRefused(n) else Refused(old(length) + n, n)
    }

    /** The same for putting n elements in front, for which there must be room if no element is present. */
    twostate predicate FrontRefused(n: nat)
      requires old(Valid())
      reads this, elements
    {
      RoomRefused(n) || (Top(old(elements[..initialized])) == 0 && Refused(n, n))
    }

    /** Move all elements up by n. */
    method MakeRoom(n: nat) returns (ok: bool)
      requires Valid() && Tidy() && 0 < length && 0 < n && length + n <= UINT32_MAX
      modifies this, elements
      ensures Valid() && iterated == old(iterated) && (elements == old(elements) || fresh(elements))
      ensures ok ==> old(length) <= length <= old(length) + n
      ensures ok ==> forall i: nat {:trigger At(i)} :: n <= i < old(length) + n ==> At(i) == old(At(i - n))
      ensures ok ==> forall i: nat {:trigger At(i)} :: i >= old(length) + n ==> At(i) == old(At(i))
      ensures !ok ==> NoRoom(old(length) + n)
      ensures ok <==> !RoomRefused(n)
      ensures ok && dense ==> elements.Length >= n || (Top(old(elements[..initialized])) == 0 && SameStorage())
      ensures ok && old(dense) && Top(old(elements[..initialized])) == 0 && Refused(n, n) ==> SameStorage()
      ensures Keeps()
    {
      var len := length;
      if dense {
        TopBelow();
        var r := EnsureElements(len, n);
        if r == Failed {
          return false;
        }
        if r == Ok {
          RoomDense(n, len);
          return true;
        }
      }
      ok := SlideUp(n);
    }

    /** Move the first len elements up by n, leaving holes. */
    method RoomDense(n: nat, len: nat)
      requires Valid() && dense && len + n <= initialized
      modifies elements
      ensures Valid()
      ensures forall i: nat {:trigger At(i)} :: n <= i < len + n ==> At(i) == old(At(i - n))
      ensures forall i: nat {:trigger At(i)} :: i >= len + n ==> At(i) == old(At(i))
    {
      hide JsArray.At;
      MoveElements(n, 0, len);
      FillHoles(n);
    }

    /** Make the first n elements holes. */
    method FillHoles(n: nat)
      requires Valid() && dense && n <= initialized
      modifies elements
      ensures Valid()
      ensures forall i: nat {:trigger At(i)} :: At(i) == if i < n then Hole else old(At(i))
    {
      var i := 0;
      while i < n
        invariant 0 <= i <= n
        invariant forall j :: 0 <= j < elements.Length ==> elements[j] == if j < i then Hole else old(elements[j])
      {
        elements[i] := Hole;
        i := i + 1;
      }
    }

    /** Dense storage is as before. */
    twostate predicate SameStorage()
      requires old(Valid()) && Valid()
      reads this, elements
    {
      dense && old(dense) && elements == old(elements) && elements[..initialized] == old(elements[..initialized])
    }

    /** The array was dense, and refuses to have its last element n places further up. */
    twostate predicate TopRefused(n: nat)
      requires old(Valid())
      reads this, elements
    {
      Top(old(elements[..initialized])) > 0 && Refused(Top(old(elements[..initialized])) + n, 1)
    }

    lemma {:induction false} TopBelow()
      requires Valid() && Tidy() && dense
      ensures Top(elements[..initialized]) <= length
      ensures Top(elements[..initialized]) > 0 ==> At(Top(elements[..initialized]) - 1).Elem?
      ensures forall i: nat {:trigger At(i)} :: i >= Top(elements[..initialized]) ==> At(i) == Hole
    {
      var elems := elements[..initialized];
      TopFacts(elems);
      if Top(elems) > 0 {
        assert At(Top(elems) - 1) == elems[Top(elems) - 1];
      }
    }

    /** Move one element up by n. */
    method SlideOne(from: nat, n: nat) returns (ok: bool)
      requires Valid() && n > 0 && from + n < UINT32_MAX
      modifies this, elements
      ensures Valid() && iterated == old(iterated) && (elements == old(elements) || fresh(elements))
      ensures ok ==> OnlyAt(from + n, old(At(from))) && length >= old(length) && (length == old(length) || length == from + n + 1)
      ensures !ok ==> NoRoom(from + n + 1)
      ensures old(At(from)).Hole? && old(At(from + n)).Hole? && old(dense) ==> ok && SameStorage()
      ensures old(At(from)).Elem? ==> (ok <==> !Refused(from + n + 1, 1))
      ensures ok && dense && old(At(from)).Elem? ==> elements.Length > from + n
      ensures old(At(from)).Hole? ==> ok && dense == old(dense)
      ensures Keeps()
    {
      ghost var before := elements[..initialized];
      var s;
      ok, s := CopyElement(from, from + n);
      if s.Hole? && old(At(from + n)).Hole? && old(dense) {
        forall i | 0 <= i < initialized
          ensures elements[i] == before[i]
        {
          assert At(i) == old(At(i));
        }
      }
    }

    /** Move all elements up by n, one by one from the last. */
    method SlideUp(n: nat) returns (ok: bool)
      requires Valid() && Tidy() && 0 < length && 0 < n && length + n <= UINT32_MAX
      modifies this, elements
      ensures Valid() && iterated == old(iterated) && (elements == old(elements) || fresh(elements))
      ensures ok ==> old(length) <= length <= old(length) + n
      ensures ok ==> forall i: nat {:trigger At(i)} :: n <= i < old(length) + n ==> At(i) == old(At(i - n))
      ensures ok ==> forall i: nat {:trigger At(i)} :: i >= old(length) + n ==> At(i) == old(At(i))
      ensures !ok ==> NoRoom(old(length) + n)
      ensures ok <==> !TopRefused(n)
      ensures old(dense) && Top(old(elements[..initialized])) == 0 ==> SameStorage()
      ensures ok && dense && Top(old(elements[..initialized])) > 0 ==> elements.Length >= n
      ensures Keeps()
    {
      hide JsArray.At, Top, TooSparse, CannotGrow;
      ghost var top := Top(elements[..initialized]);
      if dense {
        TopBelow();
      }
      var last := length;
      while last != 0
        invariant 0 <= last <= old(length) && Valid() && iterated == old(iterated)
        invariant (elements == old(elements) || fresh(elements)) && Keeps()
        invariant old(length) <= length <= old(length) + n
        invariant forall i: nat {:trigger At(i)} :: last + n <= i < old(length) + n ==> At(i) == old(At(i - n))
        invariant forall i: nat {:trigger At(i)} :: i < last + n || i >= old(length) + n ==> At(i) == old(At(i))
        invariant old(dense) && last >= top ==> SameStorage()
        invariant old(dense) && last < top ==> !TopRefused(n) && (dense ==> elements.Length >= top + n)
      {
        last := last - 1;
        ok := SlideOne(last, n);
        if !ok {
          return;
        }
      }
      ok := true;
    }

    // ---- splice ----

    /** The elements from start on, count of them, can be accessed in dense storage directly. */
    method CanOptimize(start: nat, count: nat) returns (r: bool)
      requires Valid()
      ensures r <==> start + count <= UINT32_MAX && dense && !iterated && start + count <= initialized
    {
      r := UINT32_MAX - start >= count && dense && !iterated && start + count <= initialized;
    }

    /**
     Replace elements: start counts from the end if negative, and both it and
     the count are clipped to the array; without a count all the rest goes.  The
     removed elements are returned in a new array.
     */
    method Splice(start: int, count: Count, items: seq<V>) returns (ok: bool, removed: JsArray<V>)
      requires Valid() && Tidy()
      requires length - ActualCount(start, count, length) + |items| <= UINT32_MAX
      modifies this, elements
      ensures Valid() && iterated == old(iterated)
      ensures ok ==> fresh(removed) && removed.Valid() && Tidy() && removed.Tidy()
      ensures ok ==> var s, d := ActualStart(start, old(length)), ActualCount(start, count, old(length));
        removed.Contents() == old(Contents())[s..s + d]
        && Contents() == old(Contents())[..s] + Elems(items) + old(Contents())[s + d..]
      ensures var d := ActualCount(start, count, old(length));
        && (d >= NELEMENTS_LIMIT ==> !ok)
        && (!ok && d < NELEMENTS_LIMIT ==> NoRoom(old(length) - d + |items|))
        && (!ok && |items| <= d < NELEMENTS_LIMIT ==> NoRoom(ActualStart(start, old(length)) + |items|))
        && (|items| > d && d < NELEMENTS_LIMIT ==> (ok <==> !Refused(old(length) - d + |items|, |items| - d)))
    {
      var len := length;
      var s, d := ActualStart(start, len), ActualCount(start, count, len);
      ok, removed := CopyRange(s, d);
      if ok {
        ok := Replace(s, d, items);
      }
    }

    /** Replace d elements from s on by the items. */
    method Replace(s: nat, d: nat, items: seq<V>) returns (ok: bool)
      requires Valid() && Tidy() && s + d <= length && length - d + |items| <= UINT32_MAX
      modifies this, elements
      ensures Valid() && iterated == old(iterated) && (elements == old(elements) || fresh(elements))
      ensures ok ==> Tidy() && Contents() == old(Contents())[..s] + Elems(items) + old(Contents())[s + d..]
      ensures !ok ==> NoRoom(old(length) - d + |items|)
      ensures |items| > d ==> (ok <==> !Refused(old(length) - d + |items|, |items| - d))
      ensures |items| <= d && !ok ==> NoRoom(s + |items|)
    {
      ghost var c := Contents();
      var len := length;
      ok := ReplaceElements(c, s, d, items);
      if ok {
        SetLength(len - d + |items|);
      }
    }

    /** Replace the elements; the length is set afterwards. */
    method ReplaceElements(ghost c: seq<Slot<V>>, s: nat, d: nat, items: seq<V>) returns (ok: bool)
      requires Valid() && Tidy() && s + d <= length && length - d + |items| <= UINT32_MAX && c == Contents()
      modifies this, elements
      ensures Valid() && iterated == old(iterated) && (elements == old(elements) || fresh(elements))
      ensures ok ==> forall i: nat :: At(i) == SplicedAt(c, s, d, items, i)
      ensures !ok ==> NoRoom(old(length) - d + |items|)
      ensures |items| > d ==> (ok <==> !Refused(old(length) - d + |items|, |items| - d))
      ensures |items| <= d && !ok ==> NoRoom(s + |items|)
    {
      hide JsArray.At, TooSparse, CannotGrow, SplicedAt, JsArray.Gap;
      ok := MakeGap(s, d, |items|);
      if ok {
        ok := FillGap(c, s, d, items);
      }
    }

    /** Write the items into the gap. */
    method FillGap(ghost c: seq<Slot<V>>, s: nat, d: nat, items: seq<V>) returns (ok: bool)
      requires Valid() && s + d <= |c| && |c| - d + |items| <= UINT32_MAX && Gap(c, s, d, |items|)
      modifies this, elements
      ensures Valid() && iterated == old(iterated) && (elements == old(elements) || fresh(elements))
      ensures ok ==> length >= old(length) && (length == old(length) || length <= s + |items|)
      ensures ok ==> forall i: nat :: At(i) == SplicedAt(c, s, d, items, i)
      ensures !ok ==> NoRoom(s + |items|)
    {
      ok := SetElements(s, items);
    }

    /** Below s are the elements of c, and from s + k on those of c from s + d on. */
    ghost predicate Gap(c: seq<Slot<V>>, s: nat, d: nat, k: nat)
      requires Valid() && s + d <= |c|
      reads this, elements
    {
      (forall i :: 0 <= i < s ==> At(i) == c[i])
      && (forall i: nat :: i >= s + k ==> At(i) == if i - k + d < |c| then c[i - k + d] else Hole)
    }

    /** The removed elements in a new array. */
    method CopyRange(s: nat, d: nat) returns (ok: bool, r: JsArray<V>)
      requires Valid() && s + d <= length
      ensures ok ==> fresh(r) && fresh(r.elements) && r.Valid() && r.Tidy() && r.Contents() == Contents()[s..s + d]
      ensures ok <==> d < NELEMENTS_LIMIT
    {
      var fast := CanOptimize(s, d);
      if fast {
        r := new JsArray.Copied(elements[s..s + d]);
        return true, r;
      }
      r := new JsArray.Allocated(d);
      if r.elements.Length < d {
        return false, r;
      }
      CopyInto(r, s, d);
      ok := true;
    }

    /** Define the elements from s on in another array, one by one. */
    method CopyInto(r: JsArray<V>, s: nat, d: nat)
      requires Valid() && s + d <= length && r.Valid() && r != this && r.elements != elements
      requires r.length == d <= r.elements.Length && forall i: nat :: r.At(i) == Hole
      modifies r, r.elements
      ensures r.Valid() && (r.elements == old(r.elements) || fresh(r.elements))
      ensures r.length == d && forall i: nat :: r.At(i) == if i < d then Contents()[s + i] else Hole
    {
      ghost var c := Contents();
      var k := 0;
      while k < d
        invariant 0 <= k <= d && r.Valid() && r.length == d <= r.elements.Length
        invariant r.elements == old(r.elements) || fresh(r.elements)
        invariant forall i: nat :: r.At(i) == if i < k then c[s + i] else Hole
      {
        var e := GetElement(s + k);
        assert e == c[s + k];
        if e.Elem? {
          var ok := r.SetElement(k, e.value);
        }
        k := k + 1;
      }
    }

    /** Move the elements above the removed ones to make k places for d. */
    method MakeGap(s: nat, d: nat, k: nat) returns (ok: bool)
      requires Valid() && Tidy() && s + d <= length && length - d + k <= UINT32_MAX
      modifies this, elements
      ensures Valid() && iterated == old(iterated) && (elements == old(elements) || fresh(elements))
      ensures ok ==> old(length) <= length && (length == old(length) || length <= old(length) - d + k)
      ensures ok ==> Gap(old(Contents()), s, d, k)
      ensures ok ==> (dense ==> old(dense)) && (elements.Length >= old(elements.Length) || elements.Length >= old(length) - d + k)
      ensures !ok ==> NoRoom(old(length) - d + k)
      ensures if k > d then ok <==> !Refused(old(length) - d + k, k - d) else ok
      ensures ok && k > d && dense ==> elements.Length >= old(length) - d + k
    {
      ok := true;
      if k < d {
        CloseGap(s + k, s + d, length);
      } else if k > d {
        ok := OpenGap(s, d, k);
      }
    }

    /** Move the elements from source to len down to target, and drop the rest. */
    method CloseGap(target: nat, source: nat, len: nat)
      requires Valid() && Tidy() && target < source <= len == length
      modifies this, elements
      ensures Valid() && iterated == old(iterated) && (elements == old(elements) || fresh(elements)) && length == len
      ensures forall i: nat {:trigger At(i)} :: i < target ==> At(i) == old(At(i))
      ensures forall i: nat {:trigger At(i)} :: i >= target ==> At(i) == if i < target + len - source then old(At(i - target + source)) else Hole
      ensures (dense ==> old(dense)) && (elements.Length >= old(elements.Length) || elements.Length >= target + len - source)
    {
      var fast := CanOptimize(0, len);
      if fast {
        CloseDense(target, source, len);
      } else {
        MoveDownSlowly(target, source, len);
        DeleteDown(target + len - source, len);
      }
    }

    /** Move the elements from source to len down to target in dense storage, and give up the rest. */
    method CloseDense(target: nat, source: nat, len: nat)
      requires Valid() && dense && target < source <= len <= initialized
      modifies this`initialized, this`elements, elements
      ensures Valid() && (elements == old(elements) || fresh(elements)) && elements.Length >= target + len - source
      ensures forall i: nat {:trigger At(i)} :: i < target ==> At(i) == old(At(i))
      ensures forall i: nat {:trigger At(i)} :: i >= target ==> At(i) == if i < target + len - source then old(At(i - target + source)) else Hole
    {
      MoveElements(target, source, len - source);
      Truncate(target + len - source);
      Shrink(target + len - source);
    }

    /** Move the elements from source to len down to target, one by one. */
    method MoveDownSlowly(target: nat, source: nat, len: nat)
      requires Valid() && target < source <= len == length
      modifies this, elements
      ensures Valid() && iterated == old(iterated) && (elements == old(elements) || fresh(elements))
      ensures length == len && Keeps()
      ensures forall i: nat {:trigger At(i)} :: At(i) == if target <= i < target + len - source then old(At(i - target + source)) else old(At(i))
    {
      var from, to := source, target;
      while from < len
        invariant source <= from <= len && to - target == from - source && Valid() && length == len && iterated == old(iterated)
        invariant (elements == old(elements) || fresh(elements)) && Keeps()
        invariant forall i: nat {:trigger At(i)} :: At(i) == if target <= i < to then old(At(i - target + source)) else old(At(i))
      {
        var ok, e := CopyElement(from, to);
        from, to := from + 1, to + 1;
      }
    }

    /** Delete the elements below len down to n. */
    method DeleteDown(n: nat, len: nat)
      requires Valid() && n <= len
      modifies this`shape, elements
      ensures Valid()
      ensures forall i: nat {:trigger At(i)} :: At(i) == if n <= i < len then Hole else old(At(i))
    {
      var k := len;
      while k > n
        invariant n <= k <= len && Valid()
        invariant forall i: nat {:trigger At(i)} :: At(i) == if k <= i < len then Hole else old(At(i))
      {
        DeleteElement(k - 1);
        k := k - 1;
      }
    }

    /** Move the elements above the removed ones up. */
    method OpenGap(s: nat, d: nat, k: nat) returns (ok: bool)
      requires Valid() && Tidy() && s + d <= length && k > d && length - d + k <= UINT32_MAX
      modifies this, elements
      ensures Valid() && iterated == old(iterated) && (elements == old(elements) || fresh(elements))
      ensures ok ==> old(length) <= length <= old(length) - d + k && Gap(old(Contents()), s, d, k)
      ensures !ok ==> NoRoom(old(length) - d + k)
      ensures ok <==> !Refused(old(length) - d + k, k - d)
      ensures ok && dense ==> elements.Length >= old(length) - d + k
      ensures Keeps()
    {
      var len := length;
      ok := Extend(len, k - d);
      if ok {
        ok := MoveUpAny(s + k, s + d, len);
      }
    }

    /** Have room for more elements in dense storage, or go to slow storage. */
    method Extend(len: nat, extra: nat) returns (ok: bool)
      requires Valid() && len == length && len + extra <= UINT32_MAX
      modifies this, elements
      ensures Valid() && iterated == old(iterated) && (elements == old(elements) || fresh(elements))
      ensures ok ==> length == len && SameElements() && (dense ==> initialized >= len + extra)
      ensures !ok ==> NoRoom(len + extra)
      ensures ok <==> !Refused(len + extra, extra)
      ensures Keeps() && (old(dense) && !dense ==> len + extra > old(elements.Length))
    {
      if dense {
        var r := EnsureElements(len, extra);
        if r == Failed {
          return false;
        }
        if r == Sparse {
          MakeSlow();
        }
      }
      ok := true;
    }

    /** Move the elements from source to len up to target. */
    method MoveUpAny(target: nat, source: nat, len: nat) returns (ok: bool)
      requires Valid() && source < target && source <= len == length && target + len - source <= UINT32_MAX
      requires dense ==> initialized >= target + len - source && Tidy()
      modifies this, elements
      ensures Valid() && iterated == old(iterated) && (elements == old(elements) || fresh(elements))
      ensures ok ==> len <= length <= target + len - source
      ensures ok ==> forall i: nat {:trigger At(i)} :: target <= i < target + len - source ==> At(i) == old(At(i - target + source))
      ensures ok ==> forall i: nat {:trigger At(i)} :: i < target || i >= target + len - source ==> At(i) == old(At(i))
      ensures !ok ==> NoRoom(target + len - source)
      ensures Keeps()
    {
      var fast := CanOptimize(len, target - source);
      if fast {
        MoveElements(target, source, len - source);
        Truncate(target + len - source);
        return true;
      }
      ok := MoveUpSlowly(target, source, len);
    }

    /** Move the elements from source to len up to target, one by one from the last. */
    method MoveUpSlowly(target: nat, source: nat, len: nat) returns (ok: bool)
      requires Valid() && source < target && source <= len == length && target + len - source <= UINT32_MAX
      modifies this, elements
      ensures Valid() && iterated == old(iterated) && (elements == old(elements) || fresh(elements))
      ensures ok ==> len <= length <= target + len - source
      ensures ok ==> forall i: nat {:trigger At(i)} :: target <= i < target + len - source ==> At(i) == old(At(i - target + source))
      ensures ok ==> forall i: nat {:trigger At(i)} :: i < target || i >= target + len - source ==> At(i) == old(At(i))
      ensures !ok ==> NoRoom(target + len - source)
      ensures Keeps()
    {
      var k := len - source;
      while k > 0
        invariant 0 <= k <= len - source && Valid() && iterated == old(iterated)
        invariant (elements == old(elements) || fresh(elements)) && Keeps()
        invariant len <= length <= target + len - source
        invariant forall i: nat {:trigger At(i)} :: target + k <= i < target + len - source ==> At(i) == old(At(i - target + source))
        invariant forall i: nat {:trigger At(i)} :: i < target + k || i >= target + len - source ==> At(i) == old(At(i))
      {
        var e;
        ok, e := CopyElement(source + k - 1, target + k - 1);
        if !ok {
          return;
        }
        k := k - 1;
      }
      ok := true;
    }
  }

  /** The element at i after d elements from s on were replaced by the items. */
  ghost function SplicedAt<V>(c: seq<Slot<V>>, s: nat, d: nat, items: seq<V>, i: nat): Slot<V>
    requires s + d <= |c|
  {
    if i < s then c[i]
    else if i < s + |items| then Elem(items[i - s])
    else if i - |items| + d < |c| then c[i - |items| + d]
    else Hole
  }

  /** How many elements to remove: the argument, or all the rest if it is left out. */
  datatype Count = Given(n: int) | Rest

  function ActualStart(start: int, len: nat): (s: nat)
    ensures s <= len
    ensures start >= len ==> s == len
    ensures 0 <= start < len ==> s == start
    ensures 0 <= len + start < len ==> s == len + start
    ensures len + start < 0 ==> s == 0
  {
    if start < 0 then (if len + start > 0 then len + start else 0) else if start < len then start else len
  }

  function ActualCount(start: int, count: Count, len: nat): (d: nat)
    ensures ActualStart(start, len) + d <= len
    ensures count.Rest? ==> ActualStart(start, len) + d == len
    ensures count.Given? && count.n <= 0 ==> d == 0
    ensures count.Given? && 0 <= count.n <= len - ActualStart(start, len) ==> d == count.n
    ensures count.Given? && count.n > len - ActualStart(start, len) ==> ActualStart(start, len) + d == len
  {
    var most := len - ActualStart(start, len);
    match count
    case Rest => most
    case Given(n) => var wanted := if n > 0 then n else 0; if wanted < most then wanted else most
  }

  /** A start counted from the end is the same as one counted from the front. */
  lemma {:induction false} StartFromEnd(j: nat, count: Count, len: nat)
    requires 0 < j <= len
    ensures ActualStart(0 - j, len) == ActualStart(len - j, len) == len - j
    ensures ActualCount(0 - j, count, len) == ActualCount(len - j, count, len) <= j
  {
  }

  /** The number of elements up to the last one that is present. */
  ghost function Top<V>(s: seq<Slot<V>>): (n: nat)
    ensures n <= |s|
  {
    if s == [] then 0 else if s[|s| - 1].Elem? then |s| else Top(s[..|s| - 1])
  }

  /** If no element is present, not too many would be missing. */
  lemma {:induction false} NoneSparse<V>(s: seq<Slot<V>>, n: nat)
    requires Top(s) == 0 && n < NELEMENTS_LIMIT
    ensures Present(s) == 0 && !TooSparse(s, n, n)
    decreases |s|
  {
    if s != [] {
      NoneSparse(s[..|s| - 1], n);
    }
  }

  lemma {:induction false} TopFacts<V>(s: seq<Slot<V>>)
    ensures Top(s) > 0 ==> s[Top(s) - 1].Elem?
    ensures forall i :: Top(s) <= i < |s| ==> s[i].Hole?
    decreases |s|
  {
    if s != [] && s[|s| - 1].Hole? {
      TopFacts(s[..|s| - 1]);
    }
  }

  /** The sum of the capacities that are left behind. */
  ghost function Moved(caps: seq<nat>): nat {
    if |caps| <= 1 then 0 else Moved(caps[..|caps| - 1]) + caps[|caps| - 2]
  }

  /** Growing again and again, each time for one more element, moves no more than nine times as many as there is room for in the end. */
  lemma {:induction false} GrowingIsAmortized(caps: seq<nat>)
    requires |caps| > 0 && forall i :: 0 < i < |caps| ==> caps[i] > 0 && caps[i] == GrownCapacity(caps[i - 1], caps[i - 1] + 1)
    ensures Moved(caps) <= 9 * caps[|caps| - 1]
    decreases |caps|
  {
    var n := |caps| - 1;
    if n > 0 {
      GrowingIsAmortized(caps[..n]);
      assert caps[n] == GrownCapacity(caps[n - 1], caps[n - 1] + 1);
    }
  }

  method MoveDown<V>(a: array<Slot<V>>, dst: nat, src: nat, count: nat)
    requires dst < src && src + count <= a.Length
    modifies a
    ensures forall j :: 0 <= j < a.Length ==> a[j] == if dst <= j < dst + count then old(a[j - dst + src]) else old(a[j])
  {
    var i := 0;
    while i < count
      invariant 0 <= i <= count
      invariant forall j :: dst <= j < dst + i ==> a[j] == old(a[j - dst + src])
      invariant forall j :: 0 <= j < dst || dst + i <= j < a.Length ==> a[j] == old(a[j])
    {
      a[dst + i] := a[src + i];
      i := i + 1;
    }
  }

  method MoveUp<V>(a: array<Slot<V>>, dst: nat, src: nat, count: nat)
    requires src <= dst && dst + count <= a.Length
    modifies a
    ensures forall j :: 0 <= j < a.Length ==> a[j] == if dst <= j < dst + count then old(a[j - dst + src]) else old(a[j])
  {
    var i := count;
    while i > 0
      invariant 0 <= i <= count
      invariant forall j :: dst + i <= j < dst + count ==> a[j] == old(a[j - dst + src])
      invariant forall j :: 0 <= j < dst + i || dst + count <= j < a.Length ==> a[j] == old(a[j])
    {
      i := i - 1;
      a[dst + i] := a[src + i];
    }
  }

  /** Reverse the first n elements in place. */
  method ReversePrefix<V>(a: array<Slot<V>>, n: nat)
    requires 0 < n <= a.Length
    modifies a
    ensures forall i :: 0 <= i < a.Length ==> a[i] == if i < n then old(a[n - 1 - i]) else old(a[i])
  {
    var lo, hi := 0, n - 1;
    while lo < hi
      invariant 0 <= lo <= hi + 1 && hi == n - 1 - lo
      invariant forall i :: 0 <= i < lo || hi < i < n ==> a[i] == old(a[n - 1 - i])
      invariant forall i :: lo <= i <= hi || n <= i < a.Length ==> a[i] == old(a[i])
    {
      var origLo, origHi := a[lo], a[hi];
      a[lo] := origHi;
      a[hi] := origLo;
      lo, hi := lo + 1, hi - 1;
    }
  }

  ghost function Elems<V>(items: seq<V>): (s: seq<Slot<V>>)
    ensures |s| == |items| && forall i :: 0 <= i < |items| ==> s[i] == Elem(items[i])
  {
    seq(|items|, i requires 0 <= i < |items| => Elem(items[i]))
  }

  ghost function Reversed<T>(s: seq<T>): (r: seq<T>)
    ensures |r| == |s| && forall i :: 0 <= i < |s| ==> r[i] == s[|s| - 1 - i]
  {
    seq(|s|, i requires 0 <= i < |s| => s[|s| - 1 - i])
  }

  /** Growing to the required capacity for some more elements would leave most of it empty. */
  ghost predicate TooSparse<V>(elems: seq<Slot<V>>, required: nat, extra: nat) {
    required > MIN_SPARSE_INDEX && (required >= NELEMENTS_LIMIT || Present(elems) + extra < required / 4)
  }

  /** The number of elements that are present. */
  ghost function Present<V>(s: seq<Slot<V>>): nat {
    if s == [] then 0 else Present(s[..|s| - 1]) + if s[|s| - 1].Elem? then 1 else 0
  }

  lemma {:induction false} PresentBound<V>(s: seq<Slot<V>>)
    ensures Present(s) <= |s|
    decreases |s|
  {
    if s != [] {
      PresentBound(s[..|s| - 1]);
    }
  }

  lemma {:induction false} PresentStep<V>(s: seq<Slot<V>>, i: nat)
    requires i < |s|
    ensures Present(s[..i + 1]) == Present(s[..i]) + if s[i].Elem? then 1 else 0
  {
    assert s[..i + 1][..i] == s[..i];
  }

  lemma {:induction false} PresentMono<V>(s: seq<Slot<V>>, n: nat)
    requires n <= |s|
    ensures Present(s[..n]) <= Present(s)
    decreases |s|
  {
    if n < |s| {
      PresentMono(s[..|s| - 1], n);
      assert s[..|s| - 1][..n] == s[..n];
    } else {
      assert s[..n] == s;
    }
  }
}
