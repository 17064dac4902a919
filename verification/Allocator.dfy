/**
 The allocator of big numbers: free lists by size class, linked through the
 blocks, above a private pool; and decimal strings that borrow a block and write
 over its header.
 */
module Allocator {
  import opened Words

  const KMAX: nat := 7

  /** The private pool, and the parts of a block, in units of eight bytes. */
  const POOL: nat := 288

  /** The bytes of a block of class k: a header of 28 bytes with one word, rounded up, and the other words. */
  function Bytes(k: nat): nat {
    32 + 4 * (Pow(2, k) - 1 as int)
  }

  function Units(k: nat): (n: nat)
    ensures Bytes(k) <= 8 * n < Bytes(k) + 8
  {
    (Bytes(k) + 7) / 8
  }

  class Block {
    /** What was asked for when the memory was obtained, and where in the pool it lies. */
    const size: nat
    const inPool: bool
    const place: nat

    /** The header.  The first int is the start of the link; a string keeps its class there. */
    var next: Block?
    var first: int
    var k: int
    var maxwds: int
    var sign: int
    var wds: int

    constructor (size: nat, inPool: bool, place: nat)
      ensures this.size == size && this.inPool == inPool && this.place == place
    {
      this.size, this.inPool, this.place := size, inPool, place;
      next, first, k, maxwds, sign, wds := null, 0, 0, 0, 0, 0;
    }

    /** The header of a block of its class. */
    ghost predicate Intact()
      reads this
    {
      k == size && maxwds == Pow(2, size)
    }
  }

  ghost function After(list: seq<Block>, i: int): Block? {
    if -1 <= i < |list| - 1 then list[i + 1] else null
  }

  /** The blocks are linked in this order, from the head on. */
  ghost predicate Linked(head: Block?, list: seq<Block>)
    reads list
  {
    head == (if list == [] then null else list[0])
    && (forall i :: 0 <= i < |list| ==> list[i].next == After(list, i))
  }

  ghost predicate NoDuplicates<T>(list: seq<T>) {
    forall i, j :: 0 <= i < j < |list| ==> list[i] != list[j]
  }

  /** The list of class k: linked, without a cycle, and of intact blocks of that class that are not in use. */
  ghost predicate FreeList(head: Block?, list: seq<Block>, k: nat, used: set<Block>, all: set<Block>)
    reads list
  {
    Linked(head, list) && NoDuplicates(list)
    && (forall i :: 0 <= i < |list| ==> list[i].size == k && list[i].Intact() && list[i] in all && list[i] !in used)
  }

  lemma {:induction false} PopList(head: Block?, list: seq<Block>, k: nat, used: set<Block>, all: set<Block>)
    requires FreeList(head, list, k, used, all) && head != null
    ensures list != [] && head == list[0] && head in all && head !in used && head.size == k && head.Intact()
    ensures FreeList(head.next, list[1..], k, used + {head}, all)
  {
  }

  /** A block in front of a list. */
  lemma {:induction false} PushList(b: Block, list: seq<Block>, k: nat, used: set<Block>, all: set<Block>)
    requires FreeList(b.next, list, k, used, all) && b in used && b in all && b.size == k && b.Intact()
    ensures FreeList(b, [b] + list, k, used - {b}, all)
  {
  }

  lemma {:induction false} OtherList(head: Block?, list: seq<Block>, k: nat, used: set<Block>, all: set<Block>, b: Block)
    requires FreeList(head, list, k, used, all) && b.size != k
    ensures FreeList(head, list, k, used + {b}, all)
  {
  }

  /** Two pool blocks do not share memory. */
  ghost predicate NoOverlap(b: Block, c: Block) {
    b.inPool && c.inPool && b != c ==> b.place + Units(b.size) <= c.place || c.place + Units(c.size) <= b.place
  }

  /** The class of a block whose memory, less the first int, holds a string of i characters and a terminator. */
  method StringClass(i: nat) returns (k: nat)
    ensures i + 1 + 4 <= Bytes(k) && (k > 0 ==> i + 1 + 4 > Bytes(k - 1))
  {
    var j := 4;
    k := 0;
    while 32 - 4 - 4 + j <= i
      invariant j == 4 * Pow(2, k) && j > 0 && (k > 0 ==> i + 1 + 4 > Bytes(k - 1))
      decreases i - j
    {
      j := j * 2;
      k := k + 1;
    }
  }

  class State {
    const freelist: array<Block?>
    var poolNext: nat

    ghost var lists: seq<seq<Block>>
    ghost var numbers: set<Block>
    ghost var strings: set<Block>
    ghost var all: set<Block>

    ghost predicate Valid()
      reads this, freelist, all
    {
      freelist.Length == KMAX + 1 == |lists|
      && numbers <= all && strings <= all && numbers !! strings
      && (forall k :: 0 <= k <= KMAX ==> (forall b :: b in lists[k] ==> b in all))
      && (forall k :: 0 <= k <= KMAX ==> FreeList(freelist[k], lists[k], k, numbers + strings, all))
      && (forall b :: b in numbers ==> b.Intact())
      && (forall b :: b in strings ==> b.first == b.size)
      && (forall b :: b in all ==> b in numbers || b in strings || IsFree(b))
      && PoolOk()
    }

    /** The block is on the free list of its class. */
    ghost predicate IsFree(b: Block)
      reads this`lists
    {
      b.size <= KMAX < |lists| && b in lists[b.size]
    }

    /** The blocks of the pool lie side by side below its mark. */
    ghost predicate PoolOk()
      reads this`all, this`poolNext
    {
      poolNext <= POOL
      && (forall b :: b in all && b.inPool ==> b.place + Units(b.size) <= poolNext)
      && (forall b, c :: b in all && c in all ==> NoOverlap(b, c))
    }

    constructor ()
      ensures Valid() && numbers == {} && strings == {} && all == {}
    {
      freelist := new Block?[KMAX + 1](_ => null);
      poolNext := 0;
      lists := seq(KMAX + 1, _ => []);
      numbers, strings, all := {}, {}, {};
    }

    /** A block of class k, from its free list, from the pool or from the system. */
    method Balloc(k: nat) returns (b: Block)
      requires Valid()
      modifies this, freelist, all
      ensures Valid() && old(all) <= all && all <= old(all) + {b}
      ensures b !in old(numbers) && b !in old(strings) && numbers == old(numbers) + {b} && strings == old(strings)
      ensures b.size == k && b.Intact() && b.sign == 0 && b.wds == 0
      ensures k <= KMAX && old(freelist[k]) != null ==>
        b == old(freelist[k]) && all == old(all) && poolNext == old(poolNext) && Shortened(k)
      ensures k > KMAX || old(freelist[k]) == null ==> fresh(b) && SameLists() && Taken(b, k)
      ensures forall c :: c in old(all) && c != b ==> unchanged(c)
    {
      if k <= KMAX && freelist[k] != null {
        b := freelist[k];
        Pop(k);
      } else {
        b := Obtain(k);
      }
      b.sign, b.wds := 0, 0;
    }

    /** The free lists are as before. */
    twostate predicate SameLists()
      reads this, freelist
    {
      freelist[..] == old(freelist[..]) && lists == old(lists)
    }

    /** The list of class k has lost its first block. */
    twostate predicate Shortened(k: nat)
      requires k < freelist.Length && k < old(|lists|) && old(lists[k]) != [] && old(freelist[k]) != null
      reads this, freelist
    {
      freelist[..] == old(freelist[..])[k := old(freelist[k].next)] && lists == old(lists)[k := old(lists[k])[1..]]
    }

    /** A new block of class k is from the pool as long as it fits there. */
    twostate predicate Taken(new b: Block, k: nat)
      reads this
    {
      && b.inPool == (k <= KMAX && old(poolNext) + Units(k) <= POOL)
      && (if b.inPool then b.place == old(poolNext) && poolNext == old(poolNext) + Units(k) else poolNext == old(poolNext))
    }

    /** Take the first block of a free list. */
    method Pop(k: nat)
      requires Valid() && k <= KMAX && freelist[k] != null
      modifies this, freelist
      ensures Valid() && all == old(all) && strings == old(strings) && poolNext == old(poolNext)
      ensures old(lists[k]) != [] && Shortened(k)
      ensures numbers == old(numbers) + {old(freelist[k])} && old(freelist[k]).size == k
      ensures old(freelist[k]) !in old(numbers) && old(freelist[k]) !in old(strings)
    {
      var b := freelist[k];
      ghost var used := numbers + strings;
      PopList(b, lists[k], k, used, all);
      forall j | 0 <= j <= KMAX && j != k
        ensures FreeList(freelist[j], lists[j], j, used + {b}, all)
      {
        OtherList(freelist[j], lists[j], j, used, all, b);
      }
      freelist[k] := b.next;
      lists := lists[k := lists[k][1..]];
      numbers := numbers + {b};
      assert numbers + strings == used + {b};
    }

    /** Take a new block. */
    method Obtain(k: nat) returns (b: Block)
      requires Valid()
      modifies this
      ensures Valid() && fresh(b) && all == old(all) + {b} && numbers == old(numbers) + {b} && strings == old(strings)
      ensures b.size == k && b.Intact() && SameLists() && Taken(b, k)
    {
      hide State.IsFree, Linked, Units, Pow;
      b := NewBlock(k);
      all := all + {b};
      numbers := numbers + {b};
    }

    /** A new block with its header, which is not yet in use. */
    method NewBlock(k: nat) returns (b: Block)
      requires Valid()
      modifies this`poolNext
      ensures Valid() && fresh(b) && b.size == k && b.Intact() && Taken(b, k)
      ensures b.inPool ==> forall c :: c in all ==> NoOverlap(b, c) && NoOverlap(c, b)
    {
      hide State.IsFree, Linked, Pow, Bytes;
      var len := Units(k);
      if k <= KMAX && poolNext + len <= POOL {
        b := new Block(k, true, poolNext);
        poolNext := poolNext + len;
      } else {
        b := new Block(k, false, 0);
      }
      b.k, b.maxwds := k, Pow(2, k);
    }

    /** Give a number back: to its free list, or to the system if its class has none. */
    method Bfree(b: Block)
      requires Valid() && b in numbers
      modifies this, freelist, all
      ensures Valid() && numbers == old(numbers) - {b} && strings == old(strings)
      ensures all == (if b.size > KMAX then old(all) - {b} else old(all)) && poolNext == old(poolNext)
      ensures if b.size > KMAX then SameLists() else Returned(b)
      ensures forall c :: c in old(all) && c != b ==> unchanged(c)
    {
      if b.k > KMAX {
        all := all - {b};
        numbers := numbers - {b};
      } else {
        Push(b);
      }
    }

    /** The block has become the first of the free list of its class. */
    twostate predicate Returned(b: Block)
      requires b.size < freelist.Length && b.size < old(|lists|)
      reads this, freelist, b
    {
      && freelist[..] == old(freelist[..])[b.size := b] && b.next == old(freelist[b.size])
      && lists == old(lists)[b.size := [b] + old(lists[b.size])]
    }

    /** Put a block at the front of its free list. */
    method Push(b: Block)
      requires Valid() && b in numbers && b.size <= KMAX
      modifies this, freelist, b
      ensures Valid() && numbers == old(numbers) - {b} && strings == old(strings) && all == old(all)
      ensures poolNext == old(poolNext) && Returned(b)
    {
      hide State.PoolOk, NoOverlap, Linked, Pow, Bytes, Units;
      var k := b.k;
      LinkTo(b, k);
      ghost var used := numbers + strings;
      PushList(b, lists[k], k, used, all);
      forall j | 0 <= j <= KMAX && j != k
        ensures FreeList(freelist[j], lists[j], j, used - {b}, all)
      {
      }
      freelist[k] := b;
      lists := lists[k := [b] + lists[k]];
      numbers := numbers - {b};
      assert numbers + strings == used - {b};
    }

    /** Link a number to the first block of its free list. */
    method LinkTo(b: Block, k: nat)
      requires Valid() && b in numbers && b.size == k <= KMAX
      modifies b`next
      ensures Valid() && b.next == freelist[k]
    {
      hide State.PoolOk, NoOverlap, Pow, Bytes, Units;
      b.next := freelist[k];
      forall j | 0 <= j <= KMAX
        ensures FreeList(freelist[j], lists[j], j, numbers + strings, all)
      {
        assert b !in lists[j];
      }
    }

    /** A number that is given back is the next block of its class, and the free lists are then as before. */
    method Reuse(b: Block) returns (c: Block)
      requires Valid() && b in numbers && b.size <= KMAX
      modifies this, freelist, all
      ensures Valid() && c == b && SameLists() && poolNext == old(poolNext)
      ensures numbers == old(numbers) && strings == old(strings) && all == old(all)
    {
      Bfree(b);
      c := Balloc(b.size);
    }

    /** A block for a string of i characters and a terminator, with its class in front of the characters. */
    method RvAlloc(i: nat) returns (b: Block)
      requires Valid()
      modifies this, freelist, all
      ensures Valid() && b !in old(numbers) && b !in old(strings) && numbers == old(numbers) && strings == old(strings) + {b}
      ensures i + 1 + 4 <= Bytes(b.size) && (b.size > 0 ==> i + 1 + 4 > Bytes(b.size - 1))
      ensures forall c :: c in old(all) && c != b ==> unchanged(c)
    {
      hide State.Valid, State.Shortened, State.SameLists, State.Taken, Bytes;
      var k := StringClass(i);
      b := Balloc(k);
      Lend(b, k);
    }

    /** A block becomes a string, with its class in front. */
    method Lend(b: Block, k: nat)
      requires Valid() && b in numbers && b.size == k
      modifies this`numbers, this`strings, b`first
      ensures Valid() && numbers == old(numbers) - {b} && strings == old(strings) + {b} && b.first == k
    {
      hide State.PoolOk, State.IsFree, NoOverlap, Pow;
      b.first := k;
      numbers, strings := numbers - {b}, strings + {b};
      assert numbers + strings == old(numbers + strings);
    }

    /** Writing characters leaves anything in the header after the first int. */
    method WriteString(b: Block, next: Block?, k: int, maxwds: int, sign: int, wds: int)
      requires Valid() && b in strings
      modifies b
      ensures Valid() && b.first == old(b.first)
      ensures b.next == next && b.k == k && b.maxwds == maxwds && b.sign == sign && b.wds == wds
    {
      hide State.PoolOk, NoOverlap, Pow, Bytes, Units;
      b.next, b.k, b.maxwds, b.sign, b.wds := next, k, maxwds, sign, wds;
    }

    /** Give a string back: the class in front of it restores the header. */
    method FreeDtoa(b: Block)
      requires Valid() && b in strings
      modifies this, freelist, all
      ensures Valid() && strings == old(strings) - {b} && numbers == old(numbers)
      ensures all == (if b.size > KMAX then old(all) - {b} else old(all)) && poolNext == old(poolNext)
      ensures if b.size > KMAX then SameLists() else Returned(b)
      ensures forall c :: c in old(all) && c != b ==> unchanged(c)
    {
      RestoreHeader(b);
      Bfree(b);
    }

    /** The class in front of a string is that of its block. */
    method RestoreHeader(b: Block)
      requires Valid() && b in strings
      modifies this`strings, this`numbers, b
      ensures Valid() && strings == old(strings) - {b} && numbers == old(numbers) + {b}
    {
      b.k := b.first;
      b.maxwds := Pow(2, b.k);
      strings, numbers := strings - {b}, numbers + {b};
      assert numbers + strings == old(numbers + strings);
    }
  }
}
